/** The patch parser of the dep_search evaluator, and what it recovers from a
    printed patch. */
module PatchParser {
  import opened Options
  import opened Sequences
  import opened Text
  import opened UnifiedDiff

  datatype ParsedFile = ParsedFile(filename: string, addedLines: seq<AddedLine>, hunks: seq<Header>)

  // ----- The two header shapes -----

  /** The second name of a `diff --git` line, from the last ` b/` at or before j that
      leaves both names non-empty. */
  function SecondName(line: string, j: int): Option<string>
    requires j + 3 < |line|
    decreases j
  {
    if j < 14 then None
    else if line[j..j + 3] == " b/" then Some(line[j + 3..])
    else SecondName(line, j - 1)
  }

  /** The pattern `^diff --git a/(.+) b/(.+)$`, greedy; its second group. */
  function ParseFileHeader(line: string): Option<string> {
    if "diff --git a/" <= line then SecondName(line, |line| - 4) else None
  }

  /** `(\d+)(?:,(\d+))?`: start, count and what follows. */
  function ParseRange(s: string): Option<(nat, nat, string)> {
    var k := DigitRun(s);
    if k == 0 then None
    else
      var start, rest := NumeralValue(s[..k]), s[k..];
      if "," <= rest && DigitRun(rest[1..]) > 0 then
        var m := DigitRun(rest[1..]);
        Some((start, NumeralValue(rest[1..][..m]), rest[1..][m..]))
      else Some((start, 1, rest))
  }

  function ParseHunkHeader(line: string): Option<Header> {
    if !("@@ -" <= line) then None
    else match ParseRange(line[4..])
      case None => None
      case Some((oldStart, oldCount, rest)) =>
        if !(" +" <= rest) then None
        else match ParseRange(rest[2..])
          case None => None
          case Some((newStart, newCount, rest')) =>
            if " @@" <= rest' then Some(Header(oldStart, oldCount, newStart, newCount)) else None
  }

  /** A line as the parsers see it.  `Blank` is the empty line; `Skip` covers removed
      lines and the extended headers that no branch acts on. */
  datatype Token = FileLine(name: Option<string>) | HunkLine(header: Option<Header>)
                 | Plus(content: string) | Skip | Blank | BodyLine

  predicate IsMetadata(line: string) {
    "diff" <= line || "index" <= line || "---" <= line || "+++" <= line
  }

  function Lex(line: string): Token {
    if "diff --git" <= line then FileLine(ParseFileHeader(line))
    else if "@@" <= line then HunkLine(ParseHunkHeader(line))
    else if "+" <= line && !("+++" <= line) then Plus(line[1..])
    else if "-" <= line && !("---" <= line) then Skip
    else if IsMetadata(line) then Skip
    else if line == "" then Blank
    else BodyLine
  }

  function LexAll(lines: seq<string>): seq<Token> {
    seq(|lines|, i requires 0 <= i < |lines| => Lex(lines[i]))
  }

  // ----- The line-driven parser -----

  datatype State = State(files: seq<ParsedFile>, file: Option<string>, added: seq<AddedLine>,
                         hunks: seq<Header>, line: nat)

  const START := State([], None, [], [], 0)

  /** The file under construction is emitted if its header was understood. */
  function Flush(st: State): seq<ParsedFile> {
    match st.file
    case None => st.files
    case Some(name) => st.files + [ParsedFile(name, st.added, st.hunks)]
  }

  function Step(st: State, t: Token): State {
    match t
    case FileLine(name) => State(Flush(st), name, [], [], 0)
    case HunkLine(None) => st
    case HunkLine(Some(h)) => st.(hunks := st.hunks + [h], line := h.newStart)
    case Plus(content) =>
      var added := if st.file.Some? then st.added + [AddedLine(st.line, content)] else st.added;
      st.(added := added, line := st.line + 1)
    case Skip => st
    case Blank => if st.file.Some? then st.(line := st.line + 1) else st
    case BodyLine => if st.file.Some? then st.(line := st.line + 1) else st
  }

  function Run(st: State, tokens: seq<Token>): State
    decreases |tokens|
  {
    if tokens == [] then st else Run(Step(st, tokens[0]), tokens[1..])
  }

  function Parse(lines: seq<string>): seq<ParsedFile> {
    Flush(Run(START, LexAll(lines)))
  }

  method ParsePatchWithDetails(lines: seq<string>) returns (files: seq<ParsedFile>)
    ensures files == Parse(lines)
  {
    files := [];
    var currentFile: Option<string> := None;
    var addedLines: seq<AddedLine> := [];
    var hunks: seq<Header> := [];
    var currentLine: nat := 0;
    ghost var tokens := LexAll(lines);
    for i := 0 to |lines|
      invariant Run(State(files, currentFile, addedLines, hunks, currentLine), tokens[i..]) == Run(START, tokens)
    {
      var line := lines[i];
      assert tokens[i] == Lex(line) && tokens[i..][1..] == tokens[i + 1..];
      if "diff --git" <= line {
        if currentFile.Some? {
          files := files + [ParsedFile(currentFile.value, addedLines, hunks)];
        }
        addedLines, hunks, currentLine := [], [], 0;
        currentFile := ParseFileHeader(line);
      } else if "@@" <= line {
        var header := ParseHunkHeader(line);
        if header.Some? {
          hunks := hunks + [header.value];
          currentLine := header.value.newStart;
        }
      } else if "+" <= line && !("+++" <= line) {
        if currentFile.Some? {
          addedLines := addedLines + [AddedLine(currentLine, line[1..])];
        }
        currentLine := currentLine + 1;
      } else if "-" <= line && !("---" <= line) {
      } else if currentFile.Some? && !("diff" <= line || "@@" <= line || "index" <= line || "---" <= line || "+++" <= line) {
        currentLine := currentLine + 1;
      }
    }
    if currentFile.Some? {
      files := files + [ParsedFile(currentFile.value, addedLines, hunks)];
    }
  }

  lemma {:induction false} RunAppend(st: State, a: seq<Token>, b: seq<Token>)
    ensures Run(st, a + b) == Run(Run(st, a), b)
    decreases |a|
  {
    if a == [] {
      assert a + b == b;
    } else {
      assert (a + b)[1..] == a[1..] + b;
      RunAppend(Step(st, a[0]), a[1..], b);
    }
  }

  lemma {:induction false} LexAppend(a: seq<string>, b: seq<string>)
    ensures LexAll(a + b) == LexAll(a) + LexAll(b)
  {
  }

  // ----- Headers survive printing -----

  lemma {:induction false} RangeOfDigits(a: string, b: string, rest: string)
    requires a != "" && forall i :: 0 <= i < |a| ==> IsDigit(a[i])
    requires b != "" && forall i :: 0 <= i < |b| ==> IsDigit(b[i])
    requires rest != "" && rest[0] == ' '
    ensures ParseRange(a + rest) == Some((NumeralValue(a), 1, rest))
    ensures ParseRange(a + "," + b + rest) == Some((NumeralValue(a), NumeralValue(b), rest))
  {
    DigitRunOf(a, rest);
    assert (a + rest)[..|a|] == a && (a + rest)[|a|..] == rest;
    var after := "," + b + rest;
    assert a + "," + b + rest == a + after;
    DigitRunOf(a, after);
    assert (a + after)[..|a|] == a && (a + after)[|a|..] == after;
    assert after[1..] == b + rest;
    DigitRunOf(b, rest);
    assert (b + rest)[..|b|] == b && (b + rest)[|b|..] == rest;
  }

  lemma {:induction false} RangeRoundTrip(start: nat, count: nat, rest: string)
    requires rest != "" && rest[0] == ' '
    ensures ParseRange(PrintRange(start, count) + rest) == Some((start, count, rest))
  {
    NumeralRoundTrip(start);
    NumeralRoundTrip(count);
    NumeralIsDigits(start);
    NumeralIsDigits(count);
    RangeOfDigits(Numeral(start), Numeral(count), rest);
  }

  lemma {:induction false} HeaderFromRanges(h: Header, s: string, s': string, heading: string)
    requires ParseRange(s) == Some((h.oldStart, h.oldCount, " +" + s'))
    requires ParseRange(s') == Some((h.newStart, h.newCount, " @@" + heading))
    ensures ParseHunkHeader("@@ -" + s) == Some(h)
  {
    DropPrefix("@@ -", s);
    DropPrefix(" +", s');
    DropPrefix(" @@", heading);
  }

  lemma {:induction false} DropPrefix(p: string, rest: string)
    ensures p <= p + rest && (p + rest)[|p|..] == rest
  {
  }

  /** Every `@@` line that git prints, whatever section heading follows it, is read
      back as its four numbers. */
  lemma {:induction false} HunkHeaderRoundTrip(h: Header, heading: string)
    ensures Lex(PrintHeader(h, heading)) == HunkLine(Some(h))
  {
    var a, b := PrintRange(h.oldStart, h.oldCount), PrintRange(h.newStart, h.newCount);
    var s' := b + (" @@" + heading);
    RangeRoundTrip(h.newStart, h.newCount, " @@" + heading);
    RangeRoundTrip(h.oldStart, h.oldCount, " +" + s');
    HeaderFromRanges(h, a + (" +" + s'), s', heading);
    Regroup(a, b, heading);
    LexHunk("@@ -" + (a + (" +" + s')));
  }

  lemma {:induction false} Regroup(a: string, b: string, heading: string)
    ensures "@@ -" + a + " +" + b + " @@" + heading == "@@ -" + (a + (" +" + (b + (" @@" + heading))))
  {
  }

  lemma {:induction false} LexHunk(line: string)
    requires "@@ -" <= line
    ensures Lex(line) == HunkLine(ParseHunkHeader(line))
  {
    assert line[0] == '@' && line[1] == '@';
  }

  predicate IsDigits(s: string) { s != "" && forall i :: 0 <= i < |s| ==> IsDigit(s[i]) }

  /** A start alone, which stands for a count of 1, or a start and a count. */
  ghost predicate IsRange(r: string, start: nat, count: nat) {
    (IsDigits(r) && start == NumeralValue(r) && count == 1) || exists a, b :: IsPair(r, a, b, start, count)
  }

  ghost predicate IsPair(r: string, a: string, b: string, start: nat, count: nat) {
    IsDigits(a) && IsDigits(b) && r == a + "," + b && start == NumeralValue(a) && count == NumeralValue(b)
  }

  lemma {:induction false} RangePieces(s: string, k: nat, m: nat)
    requires k < |s| && s[k] == ',' && k + 1 + m <= |s|
    ensures s == (s[..k] + "," + s[k..][1..][..m]) + s[k..][1..][m..]
  {
    var after := s[k..][1..];
    assert s == s[..k] + [','] + after && after == after[..m] + after[m..];
  }

  lemma {:induction false} StartsWithComma(s: string)
    ensures "," <= s <==> s != "" && s[0] == ','
  {
    assert "," == [','];
  }

  lemma {:induction false} RangeIs(s: string) returns (r: string)
    requires ParseRange(s).Some?
    ensures s == r + ParseRange(s).value.2 && IsRange(r, ParseRange(s).value.0, ParseRange(s).value.1)
  {
    var k := DigitRun(s);
    var after := if s[k..] != "" then s[k..][1..] else "";
    StartsWithComma(s[k..]);
    if "," <= s[k..] && DigitRun(after) > 0 {
      var m := DigitRun(after);
      r := s[..k] + "," + after[..m];
      RangePieces(s, k, m);
      assert IsPair(r, s[..k], after[..m], NumeralValue(s[..k]), NumeralValue(after[..m]));
    } else {
      r := s[..k];
      assert s == r + s[k..];
    }
  }

  lemma {:induction false} RangeReads(r: string, start: nat, count: nat, rest: string)
    requires IsRange(r, start, count) && rest != "" && rest[0] == ' '
    ensures ParseRange(r + rest) == Some((start, count, rest))
  {
    if IsDigits(r) && start == NumeralValue(r) && count == 1 {
      RangeOfDigits(r, r, rest);
    } else {
      var a, b :| IsPair(r, a, b, start, count);
      RangeOfDigits(a, b, rest);
      assert r + rest == a + "," + b + rest;
    }
  }

  /** The lines of the pattern `^@@ -(\d+)(?:,(\d+))? \+(\d+)(?:,(\d+))? @@`. */
  ghost predicate IsHunkHeader(line: string, first: string, second: string, rest: string, h: Header) {
    line == "@@ -" + (first + (" +" + (second + (" @@" + rest)))) &&
    IsRange(first, h.oldStart, h.oldCount) && IsRange(second, h.newStart, h.newCount)
  }

  lemma {:induction false} Parts(s: string, prefix: string)
    requires prefix <= s
    ensures s == prefix + s[|prefix|..]
  {
  }

  lemma {:induction false} HunkHeaderShape(line: string, h: Header) returns (first: string, second: string, rest: string)
    requires ParseHunkHeader(line) == Some(h)
    ensures IsHunkHeader(line, first, second, rest, h)
  {
    Parts(line, "@@ -");
    var afterFirst := ParseRange(line[4..]).value.2;
    first := RangeIs(line[4..]);
    Parts(afterFirst, " +");
    var afterSecond := ParseRange(afterFirst[2..]).value.2;
    second := RangeIs(afterFirst[2..]);
    Parts(afterSecond, " @@");
    rest := afterSecond[3..];
  }

  lemma {:induction false} HunkHeaderReads(line: string, first: string, second: string, rest: string, h: Header)
    requires IsHunkHeader(line, first, second, rest, h)
    ensures ParseHunkHeader(line) == Some(h)
  {
    var s' := second + (" @@" + rest);
    RangeReads(second, h.newStart, h.newCount, " @@" + rest);
    RangeReads(first, h.oldStart, h.oldCount, " +" + s');
    HeaderFromRanges(h, first + (" +" + s'), s', rest);
  }

  /** A hunk header is understood exactly if it has this form, with its numbers. */
  lemma {:induction false} HunkHeaderIs(line: string, h: Header)
    ensures ParseHunkHeader(line) == Some(h) <==> exists first, second, rest :: IsHunkHeader(line, first, second, rest, h)
  {
    if ParseHunkHeader(line) == Some(h) {
      var first, second, rest := HunkHeaderShape(line, h);
    }
    if first, second, rest :| IsHunkHeader(line, first, second, rest, h) {
      HunkHeaderReads(line, first, second, rest, h);
    }
  }

  /** A separator that leaves a non-empty second name. */
  predicate SeparatorAt(s: string, k: int) {
    0 <= k && k + 3 < |s| && s[k..k + 3] == " b/"
  }

  /** Exactly the names the greedy header pattern reads back: no ` b/` with more text
      after it. */
  ghost predicate ReadableName(name: string) {
    forall k :: !SeparatorAt(name, k)
  }

  lemma {:induction false} SecondNameFound(line: string, j: int, k: int)
    requires 14 <= k <= j && j + 3 < |line| && SeparatorAt(line, k)
    ensures SecondName(line, j).Some? && |SecondName(line, j).value| <= |line| - k - 3
    ensures (forall m :: k < m <= j ==> !SeparatorAt(line, m)) ==> SecondName(line, j) == Some(line[k + 3..])
    decreases j
  {
    if !SeparatorAt(line, j) {
      SecondNameFound(line, j - 1, k);
    }
  }

  lemma {:induction false} SliceOfRest(s: string, start: nat, m: nat)
    requires start <= m && m + 3 <= |s|
    ensures s[m..m + 3] == s[start..][m - start..m - start + 3]
  {
  }

  /** After the prefix `pre + " b/"`, separators are those of the name. */
  lemma {:induction false} SeparatorsAfter(pre: string, name: string, m: int)
    requires m > |pre|
    ensures SeparatorAt(pre + " b/" + name, m) <==> SeparatorAt(name, m - |pre| - 3)
  {
    var line := pre + " b/" + name;
    var k := |pre|;
    if m >= k + 3 {
      assert line[k + 3..] == name;
      if m + 3 < |line| {
        SliceOfRest(line, k + 3, m);
      }
    } else if m + 3 < |line| {
      assert line[m..m + 3][0] == line[m] == (" b/")[m - k];
    }
  }

  // ----- Quoted names -----

  function Spaces(s: string): nat { multiset(s)[' '] }

  lemma {:induction false} SpacesSum(a: string, b: string)
    ensures Spaces(a + b) == Spaces(a) + Spaces(b)
  {
  }

  lemma {:induction false} DigitIsNoSpace(d: nat)
    requires d < 10
    ensures DigitChar(d) != ' '
  {
  }

  lemma {:induction false} FourCharacters(a: char, b: char, c: char, d: char)
    requires a != ' ' && b != ' ' && c != ' ' && d != ' '
    ensures Spaces([a, b, c, d]) == 0
  {
  }

  lemma {:induction false} OneOctalSpaces(byte: nat)
    requires byte < 256
    ensures Spaces(Octal(byte)) == 0
  {
    DigitIsNoSpace(byte / 64);
    DigitIsNoSpace(byte / 8 % 8);
    DigitIsNoSpace(byte % 8);
    FourCharacters('\\', DigitChar(byte / 64), DigitChar(byte / 8 % 8), DigitChar(byte % 8));
  }

  lemma {:induction false} OctalSpaces(bytes: seq<nat>)
    requires forall b :: b in bytes ==> b < 256
    ensures Spaces(OctalBytes(bytes)) == 0
  {
    if bytes != [] {
      assert bytes[0] in bytes && forall b :: b in bytes[1..] ==> b in bytes;
      OctalSpaces(bytes[1..]);
      OneOctalSpaces(bytes[0]);
      SpacesSum(Octal(bytes[0]), OctalBytes(bytes[1..]));
    }
  }

  lemma {:induction false} EscapeCharSpaces(c: char)
    ensures Spaces(EscapeChar(c)) == Spaces([c])
  {
    if IsEscaped(c) && c != '"' && c != '\\' && !(7 <= c as int <= 13) {
      OctalSpaces(Utf8(c as int));
    }
  }

  /** Escaping keeps the spaces of a name. */
  lemma {:induction false} EscapeSpaces(name: string)
    ensures Spaces(Escape(name)) == Spaces(name)
  {
    if name != "" {
      EscapeCharSpaces(name[0]);
      EscapeSpaces(name[1..]);
      SpacesSum(EscapeChar(name[0]), Escape(name[1..]));
      SpacesSum([name[0]], name[1..]);
      assert name == [name[0]] + name[1..];
    }
  }

  lemma {:induction false} SecondNameAt(line: string, j: int) returns (k: int)
    requires j + 3 < |line| && SecondName(line, j).Some?
    ensures 14 <= k <= j && SeparatorAt(line, k) && SecondName(line, j) == Some(line[k + 3..])
    decreases j
  {
    if line[j..j + 3] == " b/" {
      k := j;
    } else {
      k := SecondNameAt(line, j - 1);
    }
  }

  /** A second name in quotation marks is never what is read: a text that begins before it
      has one more space, a text that begins inside it has one less. */
  lemma {:induction false} QuotedSecondName(pre: string, escaped: string, k: int)
    requires SeparatorAt(pre + " \"b/" + escaped + "\"", k)
    ensures Spaces((pre + " \"b/" + escaped + "\"")[k + 3..]) != Spaces(escaped)
  {
    var mid, last := " \"b/", "\"";
    var line := pre + mid + escaped + last;
    var found := line[k + 3..];
    assert line[k] == ' ' && line[k + 1] == 'b' && line[k + 2] == '/' by {
      assert line[k..k + 3][0] == ' ' && line[k..k + 3][1] == 'b' && line[k..k + 3][2] == '/';
    }
    assert line[|pre|] == ' ' && line[|pre| + 1] == '"' && line[|pre| + 2] == 'b' && line[|pre| + 3] == '/';
    if k < |pre| {
      assert found == pre[k + 3..] + mid + escaped + last;
      SpacesSum(pre[k + 3..] + mid + escaped, last);
      SpacesSum(pre[k + 3..] + mid, escaped);
      SpacesSum(pre[k + 3..], mid);
    } else {
      var m := k - |pre| - 4;
      assert line[|line| - 1] == '"';
      assert 0 <= m && m + 3 <= |escaped|;
      assert escaped[m] == line[k];
      assert found == escaped[m + 3..] + last;
      assert escaped == escaped[..m] + [' '] + escaped[m + 1..m + 3] + escaped[m + 3..];
      SpacesSum(escaped[m + 3..], last);
      SpacesSum(escaped[..m] + [' '] + escaped[m + 1..m + 3], escaped[m + 3..]);
      SpacesSum(escaped[..m] + [' '], escaped[m + 1..m + 3]);
      SpacesSum(escaped[..m], [' ']);
    }
  }

  /** Names that git prints without quotation marks, the second one readable. */
  ghost predicate ReadableNames(oldName: string, newName: string) {
    !NeedsQuotes(oldName) && !NeedsQuotes(newName) && ReadableName(newName)
  }

  lemma {:induction false} PrefixNeedsNoQuotes(c: char, name: string)
    requires c == 'a' || c == 'b'
    ensures NeedsQuotes([c, '/'] + name) <==> NeedsQuotes(name)
  {
    var s := [c, '/'] + name;
    if i :| 0 <= i < |name| && IsEscaped(name[i]) { assert IsEscaped(s[i + 2]); }
    if i :| 0 <= i < |s| && IsEscaped(s[i]) { assert name[i - 2] == s[i]; }
  }

  /** With neither name quoted, the second one is read back if and only if it is readable. */
  lemma {:induction false} PlainHeader(oldName: string, newName: string)
    requires oldName != "" && newName != "" && !NeedsQuotes(oldName) && !NeedsQuotes(newName)
    ensures var name := ParseFileHeader(PrintFileHeader(oldName, newName));
            name.Some? && (name == Some(newName) <==> ReadableName(newName))
  {
    PrefixNeedsNoQuotes('a', oldName);
    PrefixNeedsNoQuotes('b', newName);
    var pre := "diff --git a/" + oldName;
    var line := pre + " b/" + newName;
    assert line == "diff --git a/" + (oldName + " b/" + newName) == PrintFileHeader(oldName, newName);
    DropPrefix("diff --git a/", oldName + " b/" + newName);
    SecondNameOf(pre, newName);
  }

  lemma {:induction false} QuotedFirst(oldName: string, newName: string)
    requires NeedsQuotes(oldName)
    ensures ParseFileHeader(PrintFileHeader(oldName, newName)) == None
  {
    PrefixNeedsNoQuotes('a', oldName);
    var line := PrintFileHeader(oldName, newName);
    assert line[11] == '"' && "diff --git a/"[11] == 'a';
  }

  lemma {:induction false} QuotedSecond(oldName: string, newName: string)
    requires !NeedsQuotes(oldName) && NeedsQuotes(newName)
    ensures ParseFileHeader(PrintFileHeader(oldName, newName)) != Some(newName)
  {
    var pre := "diff --git " + ("a/" + oldName);
    PrefixNeedsNoQuotes('a', oldName);
    PrefixNeedsNoQuotes('b', newName);
    EscapeOfPrefixed(newName);
    QuotedSecondLine(pre, Escape(newName));
    NotQuotedName(pre, Escape(newName));
    EscapeSpaces(newName);
  }

  lemma {:induction false} QuotedSecondLine(pre: string, escaped: string)
    ensures pre + " " + ("\"" + ("b/" + escaped) + "\"") == pre + " \"b/" + escaped + "\""
  {
    assert " " + ("\"" + "b/") == " \"b/";
  }

  lemma {:induction false} NotQuotedName(pre: string, escaped: string)
    ensures var found := ParseFileHeader(pre + " \"b/" + escaped + "\"");
            found.Some? ==> Spaces(found.value) != Spaces(escaped)
  {
    var line := pre + " \"b/" + escaped + "\"";
    if ParseFileHeader(line).Some? {
      var k := SecondNameAt(line, |line| - 4);
      QuotedSecondName(pre, escaped, k);
    }
  }

  lemma {:induction false} EscapeOfPrefixed(name: string)
    ensures Escape("b/" + name) == "b/" + Escape(name)
  {
    var s := "b/" + name;
    assert s[1..][0] == '/' && s[1..][1..] == name;
  }

  /** Of the four forms of a file header, quoted or not on either side, the new name is read
      back exactly from the one without quotation marks, if it is readable. */
  lemma {:induction false} FileHeaderRoundTrip(oldName: string, newName: string)
    requires oldName != "" && newName != ""
    ensures var line := PrintFileHeader(oldName, newName);
            Lex(line) == FileLine(ParseFileHeader(line)) &&
            (ParseFileHeader(line) == Some(newName) <==> ReadableNames(oldName, newName))
    ensures NeedsQuotes(oldName) ==> ParseFileHeader(PrintFileHeader(oldName, newName)) == None
  {
    var rest := " " + QuoteName("a/" + oldName) + " " + QuoteName("b/" + newName);
    assert PrintFileHeader(oldName, newName) == "diff --git" + rest;
    DropPrefix("diff --git", rest);
    if NeedsQuotes(oldName) {
      QuotedFirst(oldName, newName);
    } else if NeedsQuotes(newName) {
      QuotedSecond(oldName, newName);
    } else {
      PlainHeader(oldName, newName);
    }
  }

  lemma {:induction false} UnreadableName(pre: string, name: string, m: int)
    requires |pre| >= 14 && name != "" && SeparatorAt(name, m)
    ensures var line := pre + " b/" + name;
            var found := SecondName(line, |line| - 4);
            found.Some? && |found.value| < |name|
  {
    var line := pre + " b/" + name;
    SeparatorsAfter(pre, name, |pre| + 3 + m);
    SecondNameFound(line, |line| - 4, |pre| + 3 + m);
  }

  lemma {:induction false} ReadsName(pre: string, name: string)
    requires |pre| >= 14 && name != "" && ReadableName(name)
    ensures var line := pre + " b/" + name; SecondName(line, |line| - 4) == Some(name)
  {
    var line, k := pre + " b/" + name, |pre|;
    SeparatorHere(pre, name);
    OnlySeparator(pre, name);
    SecondNameFound(line, |line| - 4, k);
    assert line[k + 3..] == name;
  }

  lemma {:induction false} SecondNameOf(pre: string, name: string)
    requires |pre| >= 14 && name != ""
    ensures var line := pre + " b/" + name;
            var found := SecondName(line, |line| - 4);
            found.Some? && (found == Some(name) <==> ReadableName(name))
  {
    if ReadableName(name) {
      ReadsName(pre, name);
    } else {
      var m :| SeparatorAt(name, m);
      UnreadableName(pre, name, m);
    }
  }

  lemma {:induction false} SeparatorHere(pre: string, name: string)
    requires name != ""
    ensures var line := pre + " b/" + name;
            SeparatorAt(line, |pre|) && line[|pre| + 3..] == name
  {
    assert (pre + " b/" + name)[|pre|..|pre| + 3] == " b/";
  }

  lemma {:induction false} OnlySeparator(pre: string, name: string)
    requires ReadableName(name)
    ensures forall m :: |pre| < m ==> !SeparatorAt(pre + " b/" + name, m)
  {
    forall m | |pre| < m ensures !SeparatorAt(pre + " b/" + name, m) {
      SeparatorsAfter(pre, name, m);
    }
  }

  // ----- Bodies -----

  /** What the parser records for a hunk body when the next new line is n: a marker
      line advances the counter, an added line starting with `++` is overlooked. */
  function RecordedFrom(body: seq<Edit>, n: nat): seq<AddedLine> {
    if body == [] then []
    else match body[0]
      case Keep(_) => RecordedFrom(body[1..], n + 1)
      case Add(t) =>
        if "++" <= t then RecordedFrom(body[1..], n)
        else [AddedLine(n, t)] + RecordedFrom(body[1..], n + 1)
      case Del(_) => RecordedFrom(body[1..], n)
      case NoEol => RecordedFrom(body[1..], n + 1)
  }

  function TokenOf(e: Edit): Token {
    match e
    case Keep(_) => BodyLine
    case Add(t) => if "++" <= t then Skip else Plus(t)
    case Del(_) => Skip
    case NoEol => BodyLine
  }

  function TokensOf(body: seq<Edit>): seq<Token> {
    seq(|body|, i requires 0 <= i < |body| => TokenOf(body[i]))
  }

  lemma {:induction false} LexEdit(e: Edit)
    ensures Lex(PrintEdit(e)) == TokenOf(e)
  {
    var line := PrintEdit(e);
    match e {
      case Keep(t) => assert line[0] == ' ';
      case Del(t) => assert line[0] == '-';
      case Add(t) =>
        assert line[0] == '+' && line[1..] == t;
        AfterSign(line, '+');
      case NoEol => assert line[0] == '\\';
    }
  }

  lemma {:induction false} AfterSign(line: string, c: char)
    requires line != "" && line[0] == c
    ensures [c, c, c] <= line <==> [c, c] <= line[1..]
  {
    if [c, c] <= line[1..] {
      assert line == [c] + line[1..];
    }
    if [c, c, c] <= line {
      assert line[1] == c && line[2] == c;
    }
  }

  lemma {:induction false} LexBody(body: seq<Edit>)
    ensures |PrintBody(body)| == |body|
    ensures LexAll(PrintBody(body)) == TokensOf(body)
  {
    if body != [] {
      LexEdit(body[0]);
      LexBody(body[1..]);
      LexAppend([PrintEdit(body[0])], PrintBody(body[1..]));
      assert TokensOf(body) == [TokenOf(body[0])] + TokensOf(body[1..]);
    }
  }

  lemma {:induction false} RunOnBody(st: State, body: seq<Edit>)
    requires st.file.Some?
    ensures var end := Run(st, TokensOf(body));
            end == st.(added := st.added + RecordedFrom(body, st.line), line := end.line)
    decreases |body|
  {
    if body != [] {
      assert TokensOf(body)[1..] == TokensOf(body[1..]);
      RunOnBody(Step(st, TokenOf(body[0])), body[1..]);
    }
  }

  /** All that the parser records for the hunks of a file. */
  function RecordedHunks(hunks: seq<Hunk>, headers: seq<Header>): seq<AddedLine>
    requires |hunks| == |headers|
  {
    if hunks == [] then []
    else RecordedFrom(hunks[0].body, headers[0].newStart) + RecordedHunks(hunks[1..], headers[1..])
  }

  function HunkTokens(hunks: seq<Hunk>, headers: seq<Header>): seq<Token>
    requires |hunks| == |headers|
  {
    if hunks == [] then []
    else [HunkLine(Some(headers[0]))] + TokensOf(hunks[0].body) + HunkTokens(hunks[1..], headers[1..])
  }

  lemma {:induction false} LexHunks(hunks: seq<Hunk>, headers: seq<Header>)
    requires |hunks| == |headers|
    ensures LexAll(PrintHunks(hunks, headers)) == HunkTokens(hunks, headers)
    decreases |hunks|
  {
    if hunks != [] {
      var first := [PrintHeader(headers[0], hunks[0].heading)];
      var body, rest := PrintBody(hunks[0].body), PrintHunks(hunks[1..], headers[1..]);
      HunkHeaderRoundTrip(headers[0], hunks[0].heading);
      assert LexAll(first) == [HunkLine(Some(headers[0]))];
      LexAppend(first + body, rest);
      LexAppend(first, body);
      LexBody(hunks[0].body);
      LexHunks(hunks[1..], headers[1..]);
    }
  }

  lemma {:induction false} RunOnHunks(st: State, hunks: seq<Hunk>, headers: seq<Header>)
    requires st.file.Some? && |hunks| == |headers|
    ensures var end := Run(st, HunkTokens(hunks, headers));
            end == st.(added := st.added + RecordedHunks(hunks, headers), hunks := st.hunks + headers, line := end.line)
    decreases |hunks|
  {
    if hunks != [] {
      var body, rest := TokensOf(hunks[0].body), HunkTokens(hunks[1..], headers[1..]);
      var tokens := HunkTokens(hunks, headers);
      assert tokens == [HunkLine(Some(headers[0]))] + (body + rest);
      assert tokens[1..] == body + rest;
      var st1 := Step(st, tokens[0]);
      RunAppend(st1, body, rest);
      RunOnBody(st1, hunks[0].body);
      RunOnHunks(Run(st1, body), hunks[1..], headers[1..]);
      assert headers == [headers[0]] + headers[1..];
    }
  }

  // ----- Whole patches -----

  /** Extended header lines (index, ---, +++, modes, renames): nothing that opens a
      file or a hunk or adds a line. */
  ghost predicate InertMeta(meta: seq<string>) {
    forall l :: l in meta ==> !Lex(l).FileLine? && !Lex(l).HunkLine? && !Lex(l).Plus?
  }

  ghost predicate WellFormed(fd: FileDiff) {
    fd.oldName != "" && fd.newName != "" && InertMeta(fd.meta)
  }

  lemma {:induction false} RunOnMeta(st: State, tokens: seq<Token>)
    requires forall t :: t in tokens ==> !t.FileLine? && !t.HunkLine? && !t.Plus?
    ensures Run(st, tokens) == st.(line := Run(st, tokens).line)
    decreases |tokens|
  {
    if tokens != [] {
      RunOnMeta(Step(st, tokens[0]), tokens[1..]);
    }
  }

  /** What the parser makes of one printed file: nothing if its header is not understood. */
  function Recorded(fd: FileDiff): seq<ParsedFile> {
    HeadersLength(fd.hunks, 0, 0);
    var headers := HeadersFrom(fd.hunks, 0, 0);
    match ParseFileHeader(PrintFileHeader(fd.oldName, fd.newName))
    case None => []
    case Some(name) => [ParsedFile(name, RecordedHunks(fd.hunks, headers), headers)]
  }

  /** Without a file nothing is recorded, whatever follows. */
  lemma {:induction false} NothingWithoutFile(st: State, tokens: seq<Token>)
    requires st.file.None? && forall t :: t in tokens ==> !t.FileLine?
    ensures Flush(Run(st, tokens)) == st.files
    decreases |tokens|
  {
    if tokens != [] {
      assert tokens[0] in tokens;
      NothingWithoutFile(Step(st, tokens[0]), tokens[1..]);
    }
  }

  lemma {:induction false} NoFileInHunks(hunks: seq<Hunk>, headers: seq<Header>)
    requires |hunks| == |headers|
    ensures forall t :: t in HunkTokens(hunks, headers) ==> !t.FileLine?
  {
    if hunks != [] {
      NoFileInHunks(hunks[1..], headers[1..]);
    }
  }

  lemma {:induction false} RunOnFileTokens(st: State, name: Option<string>, meta: seq<Token>, hunks: seq<Hunk>, headers: seq<Header>)
    requires forall t :: t in meta ==> !t.FileLine? && !t.HunkLine? && !t.Plus?
    requires |hunks| == |headers|
    ensures Flush(Run(st, [FileLine(name)] + meta + HunkTokens(hunks, headers))) == Flush(st) +
            if name.None? then [] else [ParsedFile(name.value, RecordedHunks(hunks, headers), headers)]
  {
    var rest := HunkTokens(hunks, headers);
    var tokens := [FileLine(name)] + meta + rest;
    assert tokens[1..] == meta + rest;
    var st1 := Step(st, tokens[0]);
    if name.None? {
      NoFileInHunks(hunks, headers);
      NothingWithoutFile(st1, meta + rest);
    } else {
      RunAppend(st1, meta, rest);
      RunOnMeta(st1, meta);
      RunOnHunks(Run(st1, meta), hunks, headers);
      assert [] + headers == headers && [] + RecordedHunks(hunks, headers) == RecordedHunks(hunks, headers);
    }
  }

  lemma {:induction false} RunOnFile(st: State, fd: FileDiff)
    requires WellFormed(fd)
    ensures Flush(Run(st, LexAll(PrintFile(fd)))) == Flush(st) + Recorded(fd)
  {
    HeadersLength(fd.hunks, 0, 0);
    var headers := HeadersFrom(fd.hunks, 0, 0);
    var line := PrintFileHeader(fd.oldName, fd.newName);
    var first, rest := [line], PrintHunks(fd.hunks, headers);
    FileHeaderRoundTrip(fd.oldName, fd.newName);
    assert LexAll(first) == [FileLine(ParseFileHeader(line))];
    LexAppend(first + fd.meta, rest);
    LexAppend(first, fd.meta);
    LexHunks(fd.hunks, headers);
    assert LexAll(PrintFile(fd)) == LexAll(first) + LexAll(fd.meta) + HunkTokens(fd.hunks, headers);
    RunOnFileTokens(st, ParseFileHeader(line), LexAll(fd.meta), fd.hunks, headers);
  }

  function RecordedEach(fds: seq<FileDiff>): seq<seq<ParsedFile>> { Map(Recorded, fds) }

  lemma {:induction false} RecordedCons(fd: FileDiff, rest: seq<FileDiff>)
    ensures Flatten(RecordedEach([fd] + rest)) == Recorded(fd) + Flatten(RecordedEach(rest))
  {
    MapCons(Recorded, fd, rest);
    FlattenCons(Recorded(fd), RecordedEach(rest));
  }

  lemma {:induction false} FlushChain(st: State, a: seq<Token>, b: seq<Token>, xs: seq<ParsedFile>, ys: seq<ParsedFile>)
    requires Flush(Run(st, a)) == Flush(st) + xs
    requires Flush(Run(Run(st, a), b)) == Flush(Run(st, a)) + ys
    ensures Flush(Run(st, a + b)) == Flush(st) + (xs + ys)
  {
    RunAppend(st, a, b);
    assert Flush(st) + xs + ys == Flush(st) + (xs + ys);
  }

  /** The state after whole files depends on what precedes only through the files
      emitted so far. */
  lemma {:induction false} RunOnPatch(st: State, fds: seq<FileDiff>)
    requires forall fd :: fd in fds ==> WellFormed(fd)
    ensures Flush(Run(st, LexAll(PrintPatch(fds)))) == Flush(st) + Flatten(RecordedEach(fds))
    decreases |fds|
  {
    if fds != [] {
      var fd, more := fds[0], fds[1..];
      assert fds == [fd] + more && forall x :: x in more ==> x in fds;
      var first, rest := LexAll(PrintFile(fd)), LexAll(PrintPatch(more));
      LexAppend(PrintFile(fd), PrintPatch(more));
      RunOnFile(st, fd);
      RunOnPatch(Run(st, first), more);
      FlushChain(st, first, rest, Recorded(fd), Flatten(RecordedEach(more)));
      RecordedCons(fd, more);
    }
  }

  // ----- Parsing undoes printing -----

  /** The true content of a file diff: its name, its headers, and its added lines at
      their positions in the patched file. */
  function Expected(fd: FileDiff): ParsedFile {
    ParsedFile(fd.newName, AddsOf(Script(fd.hunks, fd.tail), 0), HeadersFrom(fd.hunks, 0, 0))
  }

  ghost predicate NoPlusPlus(body: seq<Edit>) {
    forall i :: 0 <= i < |body| && body[i].Add? ==> !("++" <= body[i].text)
  }

  /** No added line that starts with `++`, and no marker before an added line. */
  ghost predicate CleanBody(body: seq<Edit>) {
    NoPlusPlus(body) &&
    forall i, j :: 0 <= i < j < |body| && body[i].NoEol? ==> !body[j].Add?
  }

  ghost predicate CleanFile(fd: FileDiff) {
    ReadableNames(fd.oldName, fd.newName) && AllClean(fd.hunks)
  }

  lemma {:induction false} RecordedLength(body: seq<Edit>, n: nat, m: nat)
    ensures |RecordedFrom(body, n)| <= |AddsOf(body, m)|
    ensures |RecordedFrom(body, n)| == |AddsOf(body, m)| <==> NoPlusPlus(body)
  {
    if body != [] {
      var rest := body[1..];
      var n' := if body[0].Keep? || body[0].NoEol? || (body[0].Add? && !("++" <= body[0].text)) then n + 1 else n;
      RecordedLength(rest, n', if body[0].Keep? || body[0].Add? then m + 1 else m);
      assert NoPlusPlus(body) <==> NoPlusPlus(rest) && (body[0].Add? ==> !("++" <= body[0].text)) by {
        assert forall i :: 0 <= i < |rest| ==> rest[i] == body[i + 1];
        if !NoPlusPlus(rest) {
          var i :| 0 <= i < |rest| && rest[i].Add? && "++" <= rest[i].text;
          assert body[i + 1].Add?;
        }
      }
    }
  }

  /** With the counter d ahead: nothing to record, or d is 0 and the body is clean. */
  ghost predicate CleanAhead(body: seq<Edit>, d: nat) { if d > 0 then NoAdds(body) else CleanBody(body) }

  /** When the recorded counter is d ahead, the records agree exactly if there is
      nothing to record, or d is 0 and the body is clean. */
  lemma {:induction false} RecordedExact(body: seq<Edit>, n: nat, d: nat)
    requires NoPlusPlus(body)
    ensures RecordedFrom(body, n + 1 + d) == AddsOf(body, n)
            <==> CleanAhead(body, d)
    decreases |body|
  {
    if body == [] {
    } else {
      var e, rest := body[0], body[1..];
      assert NoPlusPlus(rest) by { assert forall i :: 0 <= i < |rest| ==> rest[i] == body[i + 1]; }
      RecordedExact(rest, if e.Keep? || e.Add? then n + 1 else n, if e.NoEol? then d + 1 else d);
      RecordedStep(body, n, d);
      CleanStep(body, d);
    }
  }

  lemma {:induction false} RecordedStep(body: seq<Edit>, n: nat, d: nat)
    requires body != [] && NoPlusPlus(body)
    ensures var e, rest := body[0], body[1..];
            var n', d' := if e.Keep? || e.Add? then n + 1 else n, if e.NoEol? then d + 1 else d;
            RecordedFrom(body, n + 1 + d) == AddsOf(body, n)
            <==> RecordedFrom(rest, n' + 1 + d') == AddsOf(rest, n') && (e.Add? ==> d == 0)
  {
    var e, rest := body[0], body[1..];
    if e.Add? {
      var r, a := RecordedFrom(body, n + 1 + d), AddsOf(body, n);
      assert r == [AddedLine(n + 1 + d, e.text)] + RecordedFrom(rest, n + 2 + d);
      assert a == [AddedLine(n + 1, e.text)] + AddsOf(rest, n + 1);
      assert r[1..] == RecordedFrom(rest, n + 2 + d) && a[1..] == AddsOf(rest, n + 1);
      assert r[0] == AddedLine(n + 1 + d, e.text) && a[0] == AddedLine(n + 1, e.text);
    }
  }

  ghost predicate NoAdds(body: seq<Edit>) {
    forall j :: 0 <= j < |body| ==> !body[j].Add?
  }

  lemma {:induction false} CleanStep(body: seq<Edit>, d: nat)
    requires body != [] && NoPlusPlus(body)
    ensures var e, rest := body[0], body[1..];
            CleanAhead(body, d) <==> CleanAhead(rest, if e.NoEol? then d + 1 else d) && (e.Add? ==> d == 0)
  {
    var e, rest := body[0], body[1..];
    assert body == [e] + rest;
    assert forall i :: 0 <= i < |rest| ==> rest[i] == body[i + 1];
    assert forall i :: 1 <= i < |body| ==> body[i] == rest[i - 1];
    if d == 0 && !e.NoEol? && CleanBody(body) {
      forall i, j | 0 <= i < j < |rest| && rest[i].NoEol? ensures !rest[j].Add? {
        assert body[i + 1].NoEol?;
        assert !body[j + 1].Add?;
      }
    }
  }

  lemma {:induction false} NothingToRecord(body: seq<Edit>, n: nat, m: nat)
    requires NewCount(body) == 0
    ensures RecordedFrom(body, n) == [] == AddsOf(body, m)
    ensures NoAdds(body)
    decreases |body|
  {
    if body != [] {
      assert forall i :: 1 <= i < |body| ==> body[i] == body[1..][i - 1];
      NothingToRecord(body[1..], if body[0].NoEol? then n + 1 else n, m);
    }
  }

  lemma {:induction false} BodyExact(body: seq<Edit>, n: nat)
    ensures var start := if NewCount(body) == 0 then n else n + 1;
            |RecordedFrom(body, start)| <= |AddsOf(body, n)| &&
            (RecordedFrom(body, start) == AddsOf(body, n) <==> CleanBody(body))
  {
    if NewCount(body) == 0 {
      NothingToRecord(body, n, n);
    } else {
      RecordedLength(body, n + 1, n);
      if NoPlusPlus(body) {
        RecordedExact(body, n, 0);
      }
    }
  }

  /** The true additions of a file, hunk by hunk. */
  lemma {:induction false} AddsOfScript(h: Hunk, more: seq<Hunk>, tail: seq<string>, n: nat)
    ensures AddsOf(Script([h] + more, tail), n)
            == AddsOf(h.body, n + |h.skip|) + AddsOf(Script(more, tail), n + |h.skip| + NewCount(h.body))
  {
    assert ([h] + more)[1..] == more;
    KeepAllText(h.skip);
    AddsAppend(KeepAll(h.skip) + h.body, Script(more, tail), n);
    AddsAppend(KeepAll(h.skip), h.body, n);
    TextAppend(KeepAll(h.skip), h.body);
    assert NewCount(KeepAll(h.skip) + h.body) == |h.skip| + NewCount(h.body);
  }

  ghost predicate AllClean(hunks: seq<Hunk>) {
    forall h :: h in hunks ==> CleanBody(h.body)
  }

  lemma {:induction false} HunksExact(hunks: seq<Hunk>, tail: seq<string>, o: nat, n: nat)
    ensures |HeadersFrom(hunks, o, n)| == |hunks|
    ensures var recorded, truth := RecordedHunks(hunks, HeadersFrom(hunks, o, n)), AddsOf(Script(hunks, tail), n);
            |recorded| <= |truth| && (recorded == truth <==> AllClean(hunks))
    decreases |hunks|
  {
    HeadersLength(hunks, o, n);
    if hunks == [] {
      KeepAllText(tail);
    } else {
      var h, more := hunks[0], hunks[1..];
      assert hunks == [h] + more;
      var o', n' := o + |h.skip|, n + |h.skip|;
      var o'', n'' := o' + OldCount(h.body), n' + NewCount(h.body);
      AddsOfScript(h, more, tail, n);
      BodyExact(h.body, n');
      HunksExact(more, tail, o'', n'');
      assert HeadersFrom(hunks, o, n) == [HeaderOf(h, o', n')] + HeadersFrom(more, o'', n'');
      SplitEqual(RecordedFrom(h.body, HeaderOf(h, o', n').newStart), RecordedHunks(more, HeadersFrom(more, o'', n'')),
                 AddsOf(h.body, n'), AddsOf(Script(more, tail), n''));
      assert AllClean(hunks) <==> CleanBody(h.body) && AllClean(more);
    }
  }

  lemma {:induction false} FileExact(fd: FileDiff)
    requires WellFormed(fd)
    ensures Recorded(fd) == [Expected(fd)] <==> CleanFile(fd)
  {
    FileHeaderRoundTrip(fd.oldName, fd.newName);
    HunksExact(fd.hunks, fd.tail, 0, 0);
  }

  function ExpectedFiles(fds: seq<FileDiff>): seq<ParsedFile> { Map(Expected, fds) }

  ghost predicate EachReadBack(fds: seq<FileDiff>) {
    forall i :: 0 <= i < |fds| ==> RecordedEach(fds)[i] == [ExpectedFiles(fds)[i]]
  }

  lemma {:induction false} ReadBackIsClean(fds: seq<FileDiff>)
    requires forall fd :: fd in fds ==> WellFormed(fd)
    ensures EachReadBack(fds) ==> forall fd :: fd in fds ==> CleanFile(fd)
  {
    if EachReadBack(fds) {
      forall fd | fd in fds ensures CleanFile(fd) {
        var i :| 0 <= i < |fds| && fds[i] == fd;
        assert RecordedEach(fds)[i] == [ExpectedFiles(fds)[i]];
        FileExact(fd);
      }
    }
  }

  lemma {:induction false} CleanIsReadBack(fds: seq<FileDiff>)
    requires forall fd :: fd in fds ==> WellFormed(fd)
    ensures (forall fd :: fd in fds ==> CleanFile(fd)) ==> EachReadBack(fds)
  {
    if forall fd :: fd in fds ==> CleanFile(fd) {
      forall i | 0 <= i < |fds| ensures RecordedEach(fds)[i] == [ExpectedFiles(fds)[i]] {
        assert fds[i] in fds;
        FileExact(fds[i]);
      }
    }
  }

  lemma {:induction false} AtMostOne(fds: seq<FileDiff>)
    ensures forall i :: 0 <= i < |fds| ==> |RecordedEach(fds)[i]| <= 1
  {
    forall i | 0 <= i < |fds| ensures |RecordedEach(fds)[i]| <= 1 {
      assert RecordedEach(fds)[i] == Recorded(fds[i]);
    }
  }

  lemma {:induction false} ParsedIsRecorded(fds: seq<FileDiff>)
    requires forall fd :: fd in fds ==> WellFormed(fd)
    ensures Parse(PrintPatch(fds)) == Flatten(RecordedEach(fds))
  {
    RunOnPatch(START, fds);
    assert Flush(START) + Flatten(RecordedEach(fds)) == Flatten(RecordedEach(fds));
  }

  /** Parsing a printed patch gives back every file name, every hunk header and every
      added line with its position in the patched file, if and only if every file is
      clean. */
  lemma {:induction false} ParsePrintRoundTrip(fds: seq<FileDiff>)
    requires forall fd :: fd in fds ==> WellFormed(fd)
    ensures |Parse(PrintPatch(fds))| <= |fds|
    ensures Parse(PrintPatch(fds)) == ExpectedFiles(fds) <==> forall fd :: fd in fds ==> CleanFile(fd)
  {
    ParsedIsRecorded(fds);
    AtMostOne(fds);
    FlattenIs(RecordedEach(fds), ExpectedFiles(fds));
    ReadBackIsClean(fds);
    CleanIsReadBack(fds);
  }

  /** The newline at the end of a patch leaves an empty last line when the text is
      split; it changes nothing. */
  lemma {:induction false} TrailingNewline(lines: seq<string>)
    ensures Parse(lines + [""]) == Parse(lines)
  {
    LexAppend(lines, [""]);
    RunAppend(START, LexAll(lines), LexAll([""]));
    assert LexAll([""]) == [Blank];
  }

  // ----- Where the parser errs -----

  function OneHunk(name: string, body: seq<Edit>): FileDiff { FileDiff(name, name, [], [Hunk([], body, "")], []) }

  /** Giving a last line its newline prints the marker between the two versions of the line,
      and the parser puts the new one on line 2 of a file with one line. */
  lemma {:induction false} MarkerMisleads(name: string, text: string)
    requires name != "" && ReadableNames(name, name) && !("++" <= text)
    ensures var fd := OneHunk(name, [Del(text), NoEol, Add(text)]);
            Expected(fd).addedLines == [AddedLine(1, text)] &&
            |Parse(PrintPatch([fd]))| == 1 && Parse(PrintPatch([fd]))[0].addedLines == [AddedLine(2, text)]
  {
    MarkerBody(text);
    OneHunkParsed(name, [Del(text), NoEol, Add(text)]);
  }

  lemma {:induction false} MarkerBody(text: string)
    requires !("++" <= text)
    ensures var body := [Del(text), NoEol, Add(text)];
            OldCount(body) == NewCount(body) == 1 && AddsOf(body, 0) == [AddedLine(1, text)] && RecordedFrom(body, 1) == [AddedLine(2, text)]
  {
    var body := [Del(text), NoEol, Add(text)];
    var two, one := [NoEol, Add(text)], [Add(text)];
    assert body[1..] == two && two[1..] == one && one[1..] == [];
    OneAddition(text, 2);
    OneAddition(text, 0);
    assert OldText(two) == [] && NewText(two) == [text];
    assert OldText(body) == [text] + [] && NewText(body) == [] + [text];
  }

  /** An added line `++ x` looks like a file header and is lost. */
  lemma {:induction false} PlusPlusIsLost(name: string, text: string, kept: string)
    requires name != "" && ReadableNames(name, name) && "++" <= text
    ensures var fd := OneHunk(name, [Keep(kept), Add(text)]);
            Expected(fd).addedLines == [AddedLine(2, text)] &&
            |Parse(PrintPatch([fd]))| == 1 && Parse(PrintPatch([fd]))[0].addedLines == []
  {
    var body := [Keep(kept), Add(text)];
    var one := [Add(text)];
    assert body[1..] == one && one[1..] == [];
    OneAddition(text, 2);
    OneAddition(text, 1);
    assert OldText(body) == [kept] + [] && NewText(body) == [kept] + [text];
    assert RecordedFrom(body, 1) == [] && AddsOf(body, 0) == [AddedLine(2, text)];
    OneHunkParsed(name, body);
  }

  lemma {:induction false} OneAddition(text: string, n: nat)
    ensures OldText([Add(text)]) == [] && NewText([Add(text)]) == [text]
    ensures AddsOf([Add(text)], n) == [AddedLine(n + 1, text)]
    ensures RecordedFrom([Add(text)], n) == if "++" <= text then [] else [AddedLine(n, text)]
  {
    var none: seq<Edit> := [];
    assert [Add(text)][1..] == none;
    assert OldText(none) == [] && NewText(none) == [] && AddsOf(none, n + 1) == [] && RecordedFrom(none, n + 1) == [];
  }

  lemma {:induction false} OneHunkParsed(name: string, body: seq<Edit>)
    requires name != "" && ReadableNames(name, name) && OldCount(body) > 0 && NewCount(body) > 0
    ensures var fd := OneHunk(name, body);
            Expected(fd).addedLines == AddsOf(body, 0) &&
            |Parse(PrintPatch([fd]))| == 1 && Parse(PrintPatch([fd]))[0].addedLines == RecordedFrom(body, 1)
  {
    var fd := OneHunk(name, body);
    var none: seq<Hunk> := [];
    assert fd.hunks[1..] == none && KeepAll([]) == [];
    assert Script(none, []) == [];
    assert Script(fd.hunks, []) == KeepAll([]) + body + [] == body;
    assert forall x :: x in [fd] ==> x == fd;
    ParsedIsRecorded([fd]);
    OneRecorded(fd);
    FileHeaderRoundTrip(name, name);
    var headers := HeadersFrom(fd.hunks, 0, 0);
    HeadersLength(fd.hunks, 0, 0);
    assert headers[0] == HeaderOf(fd.hunks[0], 0, 0) && headers[0].newStart == 1;
    assert headers[1..] == [];
    assert RecordedHunks(fd.hunks, headers) == RecordedFrom(body, 1) + RecordedHunks(none, []);
  }

  /** With a quoted old name no line of the file is recorded. */
  lemma {:induction false} QuotedNameIsLost(fd: FileDiff)
    requires WellFormed(fd) && NeedsQuotes(fd.oldName)
    ensures Parse(PrintPatch([fd])) == []
  {
    FileHeaderRoundTrip(fd.oldName, fd.newName);
    ParsedIsRecorded([fd]);
    OneRecorded(fd);
  }

  lemma {:induction false} OneRecorded(fd: FileDiff)
    ensures Flatten(RecordedEach([fd])) == Recorded(fd)
  {
    var none: seq<FileDiff> := [];
    assert [fd] + none == [fd];
    RecordedCons(fd, none);
    assert Recorded(fd) + [] == Recorded(fd);
  }

  /** The name `x b/y` is read as `y`. */
  lemma {:induction false} SpacedNameIsCut(oldName: string)
    requires oldName != "" && !NeedsQuotes(oldName)
    ensures ParseFileHeader(PrintFileHeader(oldName, "x b/y")) == Some("y")
  {
    PrefixNeedsNoQuotes('a', oldName);
    PrefixNeedsNoQuotes('b', "x b/y");
    var pre := "diff --git a/" + oldName + " b/x";
    var line := pre + " b/" + "y";
    assert line == "diff --git a/" + (oldName + " b/x b/y") == PrintFileHeader(oldName, "x b/y");
    DropPrefix("diff --git a/", oldName + " b/x b/y");
    ReadsName(pre, "y");
  }
}
