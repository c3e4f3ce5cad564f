/** Unified diffs as data: what a patch does to a file, and how git prints it.

    A hunk carries the untouched lines before it (`skip`), which the printed
    patch omits, so that a `FileDiff` fixes both the old and the new text. */
module UnifiedDiff {
  import opened Sequences
  import opened Text

  /** One line of a hunk body.  `NoEol` is the marker git prints after a last
      line that has no newline; it belongs to neither file. */
  datatype Edit = Keep(text: string) | Del(text: string) | Add(text: string) | NoEol

  datatype Hunk = Hunk(skip: seq<string>, body: seq<Edit>, heading: string)

  datatype FileDiff = FileDiff(oldName: string, newName: string, meta: seq<string>,
                               hunks: seq<Hunk>, tail: seq<string>)

  /** The four numbers of an `@@` line. */
  datatype Header = Header(oldStart: nat, oldCount: nat, newStart: nat, newCount: nat)

  /** An added line and its 1-based position in the new file. */
  datatype AddedLine = AddedLine(num: nat, content: string)

  // ----- What the patch does -----

  function OldText(edits: seq<Edit>): seq<string> {
    if edits == [] then []
    else (if edits[0].Keep? || edits[0].Del? then [edits[0].text] else []) + OldText(edits[1..])
  }

  function NewText(edits: seq<Edit>): seq<string> {
    if edits == [] then []
    else (if edits[0].Keep? || edits[0].Add? then [edits[0].text] else []) + NewText(edits[1..])
  }

  function KeepAll(lines: seq<string>): seq<Edit> {
    seq(|lines|, i requires 0 <= i < |lines| => Keep(lines[i]))
  }

  /** The whole edit script of a file: skipped lines, hunk bodies and tail. */
  function Script(hunks: seq<Hunk>, tail: seq<string>): seq<Edit> {
    if hunks == [] then KeepAll(tail)
    else KeepAll(hunks[0].skip) + hunks[0].body + Script(hunks[1..], tail)
  }

  /** The added lines of a script with their positions, when n new lines precede it. */
  function AddsOf(edits: seq<Edit>, n: nat): seq<AddedLine> {
    if edits == [] then []
    else match edits[0]
      case Keep(_) => AddsOf(edits[1..], n + 1)
      case Add(t) => [AddedLine(n + 1, t)] + AddsOf(edits[1..], n + 1)
      case Del(_) => AddsOf(edits[1..], n)
      case NoEol => AddsOf(edits[1..], n)
  }

  function OldCount(edits: seq<Edit>): nat { |OldText(edits)| }
  function NewCount(edits: seq<Edit>): nat { |NewText(edits)| }

  lemma {:induction false} TextAppend(a: seq<Edit>, b: seq<Edit>)
    ensures OldText(a + b) == OldText(a) + OldText(b)
    ensures NewText(a + b) == NewText(a) + NewText(b)
  {
    if a == [] {
      assert a + b == b;
    } else {
      assert (a + b)[1..] == a[1..] + b;
      TextAppend(a[1..], b);
      var e := a[0];
      Assoc(if e.Keep? || e.Del? then [e.text] else [], OldText(a[1..]), OldText(b));
      Assoc(if e.Keep? || e.Add? then [e.text] else [], NewText(a[1..]), NewText(b));
    }
  }

  lemma {:induction false} KeepAllText(lines: seq<string>)
    ensures OldText(KeepAll(lines)) == lines
    ensures NewText(KeepAll(lines)) == lines
    ensures forall n :: AddsOf(KeepAll(lines), n) == []
  {
    if lines != [] {
      var k := KeepAll(lines);
      assert k[1..] == KeepAll(lines[1..]);
      KeepAllText(lines[1..]);
      assert lines == [lines[0]] + lines[1..];
    }
  }

  lemma {:induction false} AddsAppend(a: seq<Edit>, b: seq<Edit>, n: nat)
    ensures AddsOf(a + b, n) == AddsOf(a, n) + AddsOf(b, n + NewCount(a))
    decreases |a|
  {
    if a == [] {
      assert a + b == b;
    } else {
      assert (a + b)[1..] == a[1..] + b;
      AddsAppend(a[1..], b, if a[0].Keep? || a[0].Add? then n + 1 else n);
    }
  }

  ghost predicate AddAt(edits: seq<Edit>, i: int, a: AddedLine) {
    0 <= i < |edits| && edits[i].Add? && a == AddedLine(NewCount(edits[..i]) + 1, edits[i].text)
  }

  /** `AddsOf` is what applying the patch does: each recorded number indexes the
      recorded content in the new text, and the records are the `Add`s of the script. */
  lemma {:induction false} AddsAreNewLines(edits: seq<Edit>)
    ensures forall a :: a in AddsOf(edits, 0) ==>
              1 <= a.num <= NewCount(edits) && NewText(edits)[a.num - 1] == a.content
    ensures forall i :: 0 <= i < |edits| && edits[i].Add? ==>
              AddedLine(NewCount(edits[..i]) + 1, edits[i].text) in AddsOf(edits, 0)
    ensures forall a :: a in AddsOf(edits, 0) ==> exists i :: AddAt(edits, i, a)
  {
    forall i | 0 <= i < |edits| && edits[i].Add?
      ensures AddedLine(NewCount(edits[..i]) + 1, edits[i].text) in AddsOf(edits, 0)
    {
      assert edits == edits[..i] + edits[i..];
      AddsAppend(edits[..i], edits[i..], 0);
    }
    forall a | a in AddsOf(edits, 0)
      ensures 1 <= a.num <= NewCount(edits) && NewText(edits)[a.num - 1] == a.content
      ensures exists i :: AddAt(edits, i, a)
    {
      var i := AddIndex(edits, a);
      AddPosition(edits, i);
    }
  }

  lemma {:induction false} AddIndex(edits: seq<Edit>, a: AddedLine) returns (i: nat)
    requires a in AddsOf(edits, 0)
    ensures AddAt(edits, i, a)
  {
    var init, last := edits[..|edits| - 1], edits[|edits| - 1..];
    assert edits == init + last;
    AddsAppend(init, last, 0);
    assert last[1..] == [];
    if a in AddsOf(init, 0) {
      i := AddIndex(init, a);
      assert edits[..i] == init[..i];
    } else {
      i := |init|;
    }
  }

  lemma {:induction false} AddPosition(edits: seq<Edit>, i: nat)
    requires i < |edits| && edits[i].Add?
    ensures NewCount(edits[..i]) < NewCount(edits)
    ensures NewText(edits)[NewCount(edits[..i])] == edits[i].text
  {
    assert edits == edits[..i] + edits[i..];
    TextAppend(edits[..i], edits[i..]);
  }

  /** A kept line is the same line of both texts; its two positions are the
      lengths of the two texts up to and including it. */
  lemma {:induction false} SurvivorPosition(edits: seq<Edit>, i: nat)
    requires i < |edits| && edits[i].Keep?
    ensures var l, p := OldCount(edits[..i + 1]), NewCount(edits[..i + 1]);
            1 <= l <= OldCount(edits) && 1 <= p <= NewCount(edits) &&
            OldText(edits)[l - 1] == NewText(edits)[p - 1] == edits[i].text
  {
    var upTo, rest := edits[..i + 1], edits[i + 1..];
    LastKept(edits[..i], edits[i].text);
    assert upTo == edits[..i] + [Keep(edits[i].text)];
    assert edits == upTo + rest;
    TextAppend(upTo, rest);
  }

  lemma {:induction false} LastKept(init: seq<Edit>, text: string)
    ensures OldText(init + [Keep(text)]) == OldText(init) + [text]
    ensures NewText(init + [Keep(text)]) == NewText(init) + [text]
  {
    TextAppend(init, [Keep(text)]);
    assert [Keep(text)][1..] == [];
  }

  // ----- How it is printed -----

  /** The header of a hunk when o old and n new lines precede its body.  An empty
      side is printed as the line before it. */
  function HeaderOf(h: Hunk, o: nat, n: nat): Header {
    var oc, nc := OldCount(h.body), NewCount(h.body);
    Header(if oc == 0 then o else o + 1, oc, if nc == 0 then n else n + 1, nc)
  }

  function HeadersFrom(hunks: seq<Hunk>, o: nat, n: nat): seq<Header> {
    if hunks == [] then []
    else
      var o', n' := o + |hunks[0].skip|, n + |hunks[0].skip|;
      [HeaderOf(hunks[0], o', n')] +
      HeadersFrom(hunks[1..], o' + OldCount(hunks[0].body), n' + NewCount(hunks[0].body))
  }

  function PrintRange(start: nat, count: nat): string {
    if count == 1 then Numeral(start) else Numeral(start) + "," + Numeral(count)
  }

  function PrintHeader(h: Header, heading: string): string {
    "@@ -" + PrintRange(h.oldStart, h.oldCount) + " +" + PrintRange(h.newStart, h.newCount) + " @@" + heading
  }

  function PrintEdit(e: Edit): string {
    match e
    case Keep(t) => " " + t
    case Del(t) => "-" + t
    case Add(t) => "+" + t
    case NoEol => "\\ No newline at end of file"
  }

  function PrintBody(body: seq<Edit>): seq<string> {
    if body == [] then [] else [PrintEdit(body[0])] + PrintBody(body[1..])
  }

  function PrintHunks(hunks: seq<Hunk>, headers: seq<Header>): seq<string>
    requires |hunks| == |headers|
  {
    if hunks == [] then []
    else [PrintHeader(headers[0], hunks[0].heading)] + PrintBody(hunks[0].body) + PrintHunks(hunks[1..], headers[1..])
  }

  /** Control characters, `"`, `\\` and all that is not ASCII. */
  predicate IsEscaped(c: char) { (c as int) < 32 || c as int >= 127 || c == '"' || c == '\\' }

  predicate NeedsQuotes(name: string) { exists i :: 0 <= i < |name| && IsEscaped(name[i]) }

  function Octal(byte: nat): string
    requires byte < 256
  {
    ['\\', DigitChar(byte / 64), DigitChar(byte / 8 % 8), DigitChar(byte % 8)]
  }

  function Utf8(n: nat): (bytes: seq<nat>)
    requires n < 0x110000
    ensures forall b :: b in bytes ==> b < 256
  {
    if n < 0x80 then [n]
    else if n < 0x800 then [0xc0 + n / 0x40, 0x80 + n % 0x40]
    else if n < 0x10000 then [0xe0 + n / 0x1000, 0x80 + n / 0x40 % 0x40, 0x80 + n % 0x40]
    else [0xf0 + n / 0x40000, 0x80 + n / 0x1000 % 0x40, 0x80 + n / 0x40 % 0x40, 0x80 + n % 0x40]
  }

  function OctalBytes(bytes: seq<nat>): string
    requires forall b :: b in bytes ==> b < 256
  {
    if bytes == [] then ""
    else
      assert bytes[0] in bytes && forall b :: b in bytes[1..] ==> b in bytes;
      Octal(bytes[0]) + OctalBytes(bytes[1..])
  }

  function EscapeChar(c: char): string {
    var n := c as int;
    if !IsEscaped(c) then [c]
    else if c == '"' || c == '\\' then ['\\', c]
    else if 7 <= n <= 13 then ['\\', "abtnvfr"[n - 7]]
    else OctalBytes(Utf8(n))
  }

  function Escape(name: string): string {
    if name == "" then "" else EscapeChar(name[0]) + Escape(name[1..])
  }

  /** git quotes each of the two names by itself. */
  function QuoteName(name: string): string {
    if NeedsQuotes(name) then "\"" + Escape(name) + "\"" else name
  }

  function PrintFileHeader(oldName: string, newName: string): string {
    "diff --git " + QuoteName("a/" + oldName) + " " + QuoteName("b/" + newName)
  }

  lemma {:induction false} HeadersLength(hunks: seq<Hunk>, o: nat, n: nat)
    ensures |HeadersFrom(hunks, o, n)| == |hunks|
  {
    if hunks != [] {
      var o', n' := o + |hunks[0].skip|, n + |hunks[0].skip|;
      HeadersLength(hunks[1..], o' + OldCount(hunks[0].body), n' + NewCount(hunks[0].body));
    }
  }

  function PrintFile(fd: FileDiff): seq<string> {
    HeadersLength(fd.hunks, 0, 0);
    [PrintFileHeader(fd.oldName, fd.newName)] + fd.meta + PrintHunks(fd.hunks, HeadersFrom(fd.hunks, 0, 0))
  }

  function PrintPatch(fds: seq<FileDiff>): seq<string> {
    if fds == [] then [] else PrintFile(fds[0]) + PrintPatch(fds[1..])
  }
}
