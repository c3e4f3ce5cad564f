/** The func_localize test that a patch adds only comments and docstrings: a state
    machine over lines against a grammar of what it lets through. */
module Docstrings {
  import opened Sequences
  import opened Text

  const TRIPLE_DOUBLE := "\"\"\""
  const TRIPLE_SINGLE := "'''"

  predicate IsDelimiter(q: string) { q == TRIPLE_DOUBLE || q == TRIPLE_SINGLE }

  predicate EndsWith(s: string, t: string) { |t| <= |s| && s[|s| - |t|..] == t }

  // ----- The state machine -----

  /** Outside a docstring, inside one with delimiter q, or stopped at a code line. */
  datatype Mode = Outside | Inside(q: string) | Stopped

  /** A line inside a docstring leaves it only if the delimiter ends it or occurs an
      odd number of times. */
  predicate Closes(line: string, q: string)
    requires q != ""
  {
    var s := Strip(line);
    Contains(s, q) && (EndsWith(s, q) || CountOccurrences(s, q) % 2 == 1)
  }

  function OpenWith(stripped: string, q: string): Mode
    requires IsDelimiter(q) && q <= stripped
  {
    if CountOccurrences(stripped, q) >= 2 && Contains(stripped[3..], q) then Outside else Inside(q)
  }

  function Next(mode: Mode, line: string): Mode
    requires mode.Inside? ==> IsDelimiter(mode.q)
  {
    var s := Strip(line);
    if s == "" then mode
    else match mode
      case Inside(q) => if Closes(line, q) then Outside else mode
      case Stopped => Stopped
      case Outside =>
        if "#" <= s then Outside
        else if TRIPLE_DOUBLE <= s then OpenWith(s, TRIPLE_DOUBLE)
        else if TRIPLE_SINGLE <= s then OpenWith(s, TRIPLE_SINGLE)
        else Stopped
  }

  function Scan(mode: Mode, lines: seq<string>): Mode
    requires mode.Inside? ==> IsDelimiter(mode.q)
    decreases |lines|
  {
    if lines == [] then mode else Scan(Next(mode, lines[0]), lines[1..])
  }

  predicate CommentOnly(lines: seq<string>) { Scan(Outside, lines) != Stopped }

  method IsLinesCommentOnly(lines: seq<string>) returns (ok: bool)
    ensures ok == CommentOnly(lines)
  {
    if lines == [] {
      return true;
    }
    var inDocstring, docstringChar := false, "";
    for i := 0 to |lines|
      invariant inDocstring ==> IsDelimiter(docstringChar)
      invariant CommentOnly(lines) <==>
                Scan(if inDocstring then Inside(docstringChar) else Outside, lines[i..]) != Stopped
    {
      assert lines[i..][1..] == lines[i + 1..];
      var stripped := Strip(lines[i]);
      if stripped == "" {
        continue;
      }
      if inDocstring {
        if Contains(stripped, docstringChar)
           && (EndsWith(stripped, docstringChar) || CountOccurrences(stripped, docstringChar) % 2 == 1) {
          inDocstring := false;
        }
        continue;
      }
      if "#" <= stripped {
        continue;
      }
      var quotes := [TRIPLE_DOUBLE, TRIPLE_SINGLE];
      var handled := false;
      for k := 0 to 2
        invariant handled ==> Next(Outside, lines[i]) == if inDocstring then Inside(docstringChar) else Outside
        invariant !handled ==> !inDocstring && forall j :: 0 <= j < k ==> !(quotes[j] <= stripped)
        invariant inDocstring ==> IsDelimiter(docstringChar)
      {
        if !handled && quotes[k] <= stripped {
          handled := true;
          if CountOccurrences(stripped, quotes[k]) >= 2 && Contains(stripped[3..], quotes[k]) {
          } else {
            inDocstring, docstringChar := true, quotes[k];
          }
        }
      }
      if !handled {
        assert !(quotes[0] <= stripped) && !(quotes[1] <= stripped);
        StoppedForGood(lines[i + 1..]);
        return false;
      }
    }
    return true;
  }

  lemma {:induction false} StoppedForGood(lines: seq<string>)
    ensures Scan(Stopped, lines) == Stopped
  {
    if lines != [] { StoppedForGood(lines[1..]); }
  }

  // ----- The grammar -----

  /** A complete stretch of blank lines, comments and docstrings. */
  datatype Item = BlankLine(line: string) | CommentLine(line: string) | OneLineDocstring(line: string)
                | Docstring(q: string, opening: string, interior: seq<string>, closing: string)

  predicate IsOneLine(line: string, q: string)
    requires IsDelimiter(q)
  {
    q <= Strip(line) && Contains(Strip(line)[3..], q)
  }

  predicate IsOpening(line: string, q: string)
    requires IsDelimiter(q)
  {
    q <= Strip(line) && !Contains(Strip(line)[3..], q)
  }

  predicate NoneCloses(lines: seq<string>, q: string)
    requires IsDelimiter(q)
  {
    forall i :: 0 <= i < |lines| ==> !Closes(lines[i], q)
  }

  predicate IsItem(it: Item) {
    match it
    case BlankLine(l) => Strip(l) == ""
    case CommentLine(l) => "#" <= Strip(l)
    case OneLineDocstring(l) => IsOneLine(l, TRIPLE_DOUBLE) || IsOneLine(l, TRIPLE_SINGLE)
    case Docstring(q, opening, interior, closing) =>
      IsDelimiter(q) && IsOpening(opening, q) && NoneCloses(interior, q) && Closes(closing, q)
  }

  function LinesOf(it: Item): seq<string> {
    match it
    case Docstring(_, opening, interior, closing) => [opening] + interior + [closing]
    case _ => [it.line]
  }

  function AllLines(items: seq<Item>): seq<string> {
    Flatten(seq(|items|, i requires 0 <= i < |items| => LinesOf(items[i])))
  }

  ghost predicate AreItems(items: seq<Item>) { forall it :: it in items ==> IsItem(it) }

  /** A docstring that the lines end in the middle of. */
  ghost predicate IsUnterminated(lines: seq<string>) {
    lines != [] && exists q :: IsDelimiter(q) && IsOpening(lines[0], q) && NoneCloses(lines[1..], q)
  }

  predicate IsCode(line: string) {
    var s := Strip(line);
    s != "" && !("#" <= s) && !(TRIPLE_DOUBLE <= s) && !(TRIPLE_SINGLE <= s)
  }

  /** An interior line that does not contain the delimiter does not close. */
  lemma {:induction false} WithoutDelimiterDoesNotClose(line: string, q: string)
    requires IsDelimiter(q) && !Contains(line, q)
    ensures !Closes(line, q)
  {
    if Contains(Strip(line), q) {
      StripIsPart(line, q);
    }
  }

  ghost predicate IsBefore(s: string, before: string, t: string) { s == before + t }

  lemma {:induction false} EndsWithIs(s: string, t: string)
    ensures EndsWith(s, t) <==> exists before :: IsBefore(s, before, t)
  {
    if EndsWith(s, t) {
      assert IsBefore(s, s[..|s| - |t|], t);
    }
    if before :| IsBefore(s, before, t) {
      assert s[|s| - |t|..] == t;
    }
  }

  lemma {:induction false} EndIsPart(s: string, t: string)
    requires EndsWith(s, t)
    ensures Contains(s, t)
  {
    ContainsAt(s, t, |s| - |t|);
  }

  /** A line closes a docstring exactly if the delimiter stands at its end or occurs in it an
      odd number of times. */
  lemma {:induction false} ClosingLine(line: string, q: string)
    requires IsDelimiter(q)
    ensures Closes(line, q) <==> (exists before :: IsBefore(Strip(line), before, q)) || CountOccurrences(Strip(line), q) % 2 == 1
  {
    EndsWithIs(Strip(line), q);
    CountIsPositive(Strip(line), q);
    if EndsWith(Strip(line), q) { EndIsPart(Strip(line), q); }
  }

  /** One line with a text between three double or three single quotes is let through. */
  lemma {:induction false} QuotedLineIsAccepted(quote: char, text: string)
    requires quote == '"' || quote == '\''
    ensures CommentOnly([[quote, quote, quote] + text + [quote, quote, quote]])
  {
    var q := [quote, quote, quote];
    var line := q + text + q;
    assert IsDelimiter(q);
    Tight(line);
    assert line[3..] == text + q + "";
    ContainsAround(text, q, "", q);
    assert q <= line;
    TwoOccurrences(line, q);
    assert [line][1..] == [];
  }

  lemma {:induction false} TwoOccurrences(line: string, q: string)
    requires q != "" && q <= line && Contains(line[|q|..], q)
    ensures CountOccurrences(line, q) >= 2
  {
    CountIsPositive(line[|q|..], q);
  }

  lemma {:induction false} Sandwich(s: string, suffix: string, part: string) returns (before: string, after: string)
    requires |suffix| <= |s| && suffix == s[|s| - |suffix|..] && part <= suffix
    ensures s == before + part + after
  {
    before, after := s[..|s| - |suffix|], suffix[|part|..];
  }

  lemma {:induction false} AroundStrip(line: string) returns (before: string, after: string)
    ensures line == before + Strip(line) + after
  {
    var a := TrimLeft(line, IsSpace);
    TrimLeftIsSuffix(line, IsSpace);
    TrimRightIsPrefix(a, IsSpace);
    before, after := Sandwich(line, a, Strip(line));
  }

  lemma {:induction false} StripIsPart(line: string, q: string)
    requires Contains(Strip(line), q)
    ensures Contains(line, q)
  {
    var before, after := AroundStrip(line);
    ContainsAround(before, Strip(line), after, q);
  }

  // ----- One line, one item -----

  /** Counting twice and looking behind the first delimiter are the same test. */
  lemma {:induction false} OpenWithMeans(line: string, q: string)
    requires IsDelimiter(q) && q <= Strip(line)
    ensures OpenWith(Strip(line), q) == if IsOneLine(line, q) then Outside else Inside(q)
  {
    CountIsPositive(Strip(line)[3..], q);
  }

  lemma {:induction false} DelimitersDiffer(s: string)
    ensures TRIPLE_DOUBLE <= s ==> !(TRIPLE_SINGLE <= s) && !("#" <= s) && s != ""
    ensures TRIPLE_SINGLE <= s ==> !("#" <= s) && s != ""
  {
    if TRIPLE_DOUBLE <= s { assert s[0] == '"'; }
    if TRIPLE_SINGLE <= s { assert s[0] == '\''; }
    if "#" <= s { assert s[0] == '#'; }
  }

  lemma {:induction false} NextOutside(line: string)
    ensures Strip(line) == "" || "#" <= Strip(line) ==> Next(Outside, line) == Outside
    ensures IsCode(line) ==> Next(Outside, line) == Stopped
    ensures forall q :: IsDelimiter(q) && q <= Strip(line) ==>
              Next(Outside, line) == if IsOneLine(line, q) then Outside else Inside(q)
  {
    DelimitersDiffer(Strip(line));
    if TRIPLE_DOUBLE <= Strip(line) { OpenWithMeans(line, TRIPLE_DOUBLE); }
    if TRIPLE_SINGLE <= Strip(line) { OpenWithMeans(line, TRIPLE_SINGLE); }
  }

  lemma {:induction false} NextInside(line: string, q: string)
    requires IsDelimiter(q)
    ensures Next(Inside(q), line) == if Closes(line, q) then Outside else Inside(q)
  {
  }

  lemma {:induction false} ScanAppend(mode: Mode, a: seq<string>, b: seq<string>)
    requires mode.Inside? ==> IsDelimiter(mode.q)
    ensures var m := Scan(mode, a);
            (m.Inside? ==> IsDelimiter(m.q)) && Scan(mode, a + b) == Scan(m, b)
    decreases |a|
  {
    if a == [] {
      assert a + b == b;
    } else {
      assert (a + b)[1..] == a[1..] + b;
      ScanAppend(Next(mode, a[0]), a[1..], b);
    }
  }

  lemma {:induction false} ScanInterior(lines: seq<string>, q: string)
    requires IsDelimiter(q) && NoneCloses(lines, q)
    ensures Scan(Inside(q), lines) == Inside(q)
  {
    if lines != [] {
      assert !Closes(lines[0], q);
      NextInside(lines[0], q);
      assert forall i :: 0 <= i < |lines| - 1 ==> lines[1..][i] == lines[i + 1];
      ScanInterior(lines[1..], q);
    }
  }

  lemma {:induction false} ScanItem(it: Item)
    requires IsItem(it)
    ensures Scan(Outside, LinesOf(it)) == Outside
  {
    match it {
      case Docstring(q, opening, interior, closing) =>
        NextOutside(opening);
        NextInside(closing, q);
        assert [opening][1..] == [] && [closing][1..] == [];
        ScanAppend(Outside, [opening] + interior, [closing]);
        ScanAppend(Outside, [opening], interior);
        ScanInterior(interior, q);
      case _ =>
        NextOutside(it.line);
        assert [it.line][1..] == [];
    }
  }

  lemma {:induction false} AllLinesCons(it: Item, more: seq<Item>, rest: seq<string>)
    ensures AllLines([it] + more) + rest == LinesOf(it) + (AllLines(more) + rest)
  {
    var items := [it] + more;
    var parts := seq(|items|, i requires 0 <= i < |items| => LinesOf(items[i]));
    assert parts[1..] == seq(|more|, i requires 0 <= i < |more| => LinesOf(more[i]));
    Assoc(LinesOf(it), AllLines(more), rest);
  }

  lemma {:induction false} ScanItems(items: seq<Item>, rest: seq<string>)
    requires AreItems(items)
    ensures Scan(Outside, AllLines(items) + rest) == Scan(Outside, rest)
    decreases |items|
  {
    if items == [] {
      assert AllLines([]) == [] && [] + rest == rest;
    } else {
      var it, more := items[0], items[1..];
      assert items == [it] + more;
      AllLinesCons(it, more, rest);
      ScanItem(it);
      ScanAppend(Outside, LinesOf(it), AllLines(more) + rest);
      ScanItems(more, rest);
    }
  }

  lemma {:induction false} ScanUnterminated(lines: seq<string>)
    requires IsUnterminated(lines)
    ensures Scan(Outside, lines).Inside?
  {
    var q :| IsDelimiter(q) && IsOpening(lines[0], q) && NoneCloses(lines[1..], q);
    NextOutside(lines[0]);
    ScanInterior(lines[1..], q);
  }

  lemma {:induction false} ScanCode(line: string, rest: seq<string>)
    requires IsCode(line)
    ensures Scan(Outside, [line] + rest) == Stopped
  {
    NextOutside(line);
    assert ([line] + rest)[1..] == rest;
    StoppedForGood(rest);
  }

  // ----- Reading any input by the grammar -----

  function FirstClosing(lines: seq<string>, q: string): (k: nat)
    requires IsDelimiter(q)
    ensures k <= |lines| && NoneCloses(lines[..k], q) && (k < |lines| ==> Closes(lines[k], q))
  {
    if lines == [] || Closes(lines[0], q) then 0
    else
      var k := FirstClosing(lines[1..], q);
      assert lines[..k + 1] == [lines[0]] + lines[1..][..k];
      k + 1
  }

  lemma {:induction false} PrependItem(it: Item, more: seq<Item>, rest: seq<string>, lines: seq<string>)
    requires IsItem(it) && AreItems(more)
    requires lines == LinesOf(it) + (AllLines(more) + rest)
    ensures AreItems([it] + more) && lines == AllLines([it] + more) + rest
  {
    AllLinesCons(it, more, rest);
    assert forall x :: x in [it] + more ==> x == it || x in more;
  }

  lemma {:induction false} Around(first: string, mid: seq<string>, last: string, lines: seq<string>)
    requires |lines| >= |mid| + 2 && lines[0] == first && lines[1..][..|mid|] == mid && lines[1..][|mid|] == last
    ensures [first] + mid + [last] <= lines
  {
    assert [first] + mid + [last] == lines[..|mid| + 2];
  }

  /** An opening line begins a docstring, or one that never ends. */
  lemma {:induction false} FirstDocstring(lines: seq<string>, q: string) returns (it: Item)
    requires lines != [] && IsDelimiter(q) && IsOpening(lines[0], q)
    ensures IsUnterminated(lines) || (IsItem(it) && LinesOf(it) <= lines)
  {
    var more := lines[1..];
    var k := FirstClosing(more, q);
    it := BlankLine(lines[0]);
    if k == |more| {
      assert more[..k] == more;
    } else {
      it := Docstring(q, lines[0], more[..k], more[k]);
      Around(lines[0], more[..k], more[k], lines);
    }
  }

  /** The item that a line that is not code begins, unless it opens a docstring that
      never ends. */
  lemma {:induction false} FirstItem(lines: seq<string>) returns (it: Item)
    requires lines != [] && !IsCode(lines[0])
    ensures IsUnterminated(lines) || (IsItem(it) && LinesOf(it) <= lines)
  {
    var line := lines[0];
    var q := if TRIPLE_DOUBLE <= Strip(line) then TRIPLE_DOUBLE else TRIPLE_SINGLE;
    it := BlankLine(line);
    assert [line] <= lines;
    if Strip(line) != "" && !("#" <= Strip(line)) && !IsOneLine(line, q) {
      it := FirstDocstring(lines, q);
    } else if "#" <= Strip(line) {
      it := CommentLine(line);
    } else if Strip(line) != "" {
      it := OneLineDocstring(line);
    }
  }

  /** Every input is a list of items, followed by nothing, by code, or by a docstring
      that never ends. */
  lemma {:induction false} Decompose(lines: seq<string>) returns (items: seq<Item>, rest: seq<string>)
    ensures AreItems(items) && lines == AllLines(items) + rest
    ensures rest == [] || IsCode(rest[0]) || IsUnterminated(rest)
    decreases |lines|
  {
    items, rest := [], lines;
    if lines != [] && !IsCode(lines[0]) {
      var it := FirstItem(lines);
      if !IsUnterminated(lines) {
        var n := |LinesOf(it)|;
        assert lines == LinesOf(it) + lines[n..];
        items, rest := Decompose(lines[n..]);
        PrependItem(it, items, rest, lines);
        items := [it] + items;
      }
    }
  }

  /** Items, possibly ending inside a docstring. */
  ghost predicate ReadsAs(lines: seq<string>, items: seq<Item>, rest: seq<string>) {
    AreItems(items) && lines == AllLines(items) + rest && (rest == [] || IsUnterminated(rest))
  }

  /** Items followed by a code line and anything. */
  ghost predicate BreaksAt(lines: seq<string>, items: seq<Item>, rest: seq<string>) {
    AreItems(items) && lines == AllLines(items) + rest && rest != [] && IsCode(rest[0])
  }

  lemma {:induction false} ReadIsAccepted(lines: seq<string>, items: seq<Item>, rest: seq<string>)
    requires ReadsAs(lines, items, rest)
    ensures CommentOnly(lines)
  {
    ScanItems(items, rest);
    if rest != [] { ScanUnterminated(rest); }
  }

  lemma {:induction false} BrokenIsRejected(lines: seq<string>, items: seq<Item>, rest: seq<string>)
    requires BreaksAt(lines, items, rest)
    ensures !CommentOnly(lines)
  {
    ScanItems(items, rest);
    assert rest == [rest[0]] + rest[1..];
    ScanCode(rest[0], rest[1..]);
  }

  /** The lines are accepted if and only if they are blank lines, comments and complete
      docstrings, possibly ending inside a docstring; they are rejected if and only if
      such items are followed by a code line, whatever comes after it. */
  lemma {:induction false} VerdictIsGrammar(lines: seq<string>)
    ensures CommentOnly(lines) <==> exists items, rest :: ReadsAs(lines, items, rest)
    ensures !CommentOnly(lines) <==> exists items, rest :: BreaksAt(lines, items, rest)
  {
    var items, rest := Decompose(lines);
    if rest != [] && IsCode(rest[0]) {
      assert BreaksAt(lines, items, rest);
      BrokenIsRejected(lines, items, rest);
    } else {
      assert ReadsAs(lines, items, rest);
      ReadIsAccepted(lines, items, rest);
    }
    forall xs, r | ReadsAs(lines, xs, r) ensures CommentOnly(lines) { ReadIsAccepted(lines, xs, r); }
    forall xs, r | BreaksAt(lines, xs, r) ensures !CommentOnly(lines) { BrokenIsRejected(lines, xs, r); }
  }

  function DropBlank(lines: seq<string>): seq<string> {
    if lines == [] then []
    else (if Strip(lines[0]) == "" then [] else [lines[0]]) + DropBlank(lines[1..])
  }

  lemma {:induction false} BlanksAreIgnored(mode: Mode, lines: seq<string>)
    requires mode.Inside? ==> IsDelimiter(mode.q)
    ensures Scan(mode, DropBlank(lines)) == Scan(mode, lines)
    decreases |lines|
  {
    if lines != [] {
      BlanksAreIgnored(Next(mode, lines[0]), lines[1..]);
      if Strip(lines[0]) == "" {
        assert DropBlank(lines) == DropBlank(lines[1..]);
      } else {
        assert DropBlank(lines)[1..] == DropBlank(lines[1..]);
      }
    }
  }

  /** Dropping blank lines never changes the verdict. */
  lemma {:induction false} BlankLinesDoNotMatter(lines: seq<string>)
    ensures CommentOnly(DropBlank(lines)) == CommentOnly(lines)
  {
    BlanksAreIgnored(Outside, lines);
  }

  /** A patch is accepted if it removes nothing and adds only comments and docstrings. */
  method CheckAddCommentsOnly(added: seq<string>, removed: seq<string>) returns (ok: bool)
    ensures ok <==> removed == [] && CommentOnly(added)
  {
    if removed != [] {
      return false;
    }
    ok := IsLinesCommentOnly(added);
  }

  /** A docstring that is never closed lets code through. */
  lemma {:induction false} UnclosedIsAccepted(code: string)
    requires !Contains(code, TRIPLE_DOUBLE)
    ensures CommentOnly([TRIPLE_DOUBLE, code])
  {
    assert TrimLeft(TRIPLE_DOUBLE, IsSpace) == TRIPLE_DOUBLE && TrimRight(TRIPLE_DOUBLE, IsSpace) == TRIPLE_DOUBLE;
    assert TRIPLE_DOUBLE[3..] == "" && !Contains("", TRIPLE_DOUBLE);
    WithoutDelimiterDoesNotClose(code, TRIPLE_DOUBLE);
    assert IsOpening(TRIPLE_DOUBLE, TRIPLE_DOUBLE) && [TRIPLE_DOUBLE, code][1..] == [code];
    assert NoneCloses([code], TRIPLE_DOUBLE);
    ScanUnterminated([TRIPLE_DOUBLE, code]);
  }
}
