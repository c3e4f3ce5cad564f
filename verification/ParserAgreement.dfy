/** The other patch parsers: the line-number parser of func_localize against the one of
    dep_search, and the two text parsers of func_localize and issue_localize. */
module ParserAgreement {
  import opened Options
  import opened Text
  import opened UnifiedDiff
  import opened PatchParser

  // ----- parse_hunk_line_numbers -----

  datatype NumberedFile = NumberedFile(filename: string, numbers: seq<nat>)

  datatype NumState = NumState(files: seq<NumberedFile>, file: Option<string>, numbers: seq<nat>, line: nat)

  const NUM_START := NumState([], None, [], 0)

  function FlushNumbers(st: NumState): seq<NumberedFile> {
    match st.file
    case None => st.files
    case Some(name) => st.files + [NumberedFile(name, st.numbers)]
  }

  /** Unlike the other parser: the counter survives a file header, added lines are
      listed even without a file, and a blank line does not count. */
  function NumStep(st: NumState, t: Token): NumState {
    match t
    case FileLine(name) => NumState(FlushNumbers(st), name, [], st.line)
    case HunkLine(None) => st
    case HunkLine(Some(h)) => st.(line := h.newStart)
    case Plus(_) => st.(numbers := st.numbers + [st.line], line := st.line + 1)
    case Skip => st
    case Blank => st
    case BodyLine => if st.file.Some? then st.(line := st.line + 1) else st
  }

  function NumRun(st: NumState, tokens: seq<Token>): NumState
    decreases |tokens|
  {
    if tokens == [] then st else NumRun(NumStep(st, tokens[0]), tokens[1..])
  }

  function ParseNumbers(lines: seq<string>): seq<NumberedFile> {
    FlushNumbers(NumRun(NUM_START, LexAll(lines)))
  }

  method ParseHunkLineNumbers(lines: seq<string>) returns (files: seq<NumberedFile>)
    ensures files == ParseNumbers(lines)
  {
    files := [];
    var currentFile: Option<string> := None;
    var addedLineNumbers: seq<nat> := [];
    var currentLine: nat := 0;
    ghost var tokens := LexAll(lines);
    for i := 0 to |lines|
      invariant NumRun(NumState(files, currentFile, addedLineNumbers, currentLine), tokens[i..])
                == NumRun(NUM_START, tokens)
    {
      var line := lines[i];
      assert tokens[i] == Lex(line) && tokens[i..][1..] == tokens[i + 1..];
      if "diff --git" <= line {
        if currentFile.Some? {
          files := files + [NumberedFile(currentFile.value, addedLineNumbers)];
        }
        addedLineNumbers := [];
        currentFile := ParseFileHeader(line);
      } else if "@@" <= line {
        var header := ParseHunkHeader(line);
        if header.Some? {
          currentLine := header.value.newStart;
        }
      } else if "+" <= line && !("+++" <= line) {
        addedLineNumbers := addedLineNumbers + [currentLine];
        currentLine := currentLine + 1;
      } else if !("-" <= line) && !("---" <= line) && currentFile.Some? {
        if " " <= line || (line != "" && !(IsMetadata(line) || "@@" <= line)) {
          assert Lex(line) == BodyLine;
          currentLine := currentLine + 1;
        }
      }
    }
    if currentFile.Some? {
      files := files + [NumberedFile(currentFile.value, addedLineNumbers)];
    }
  }

  // ----- When the two line-number parsers agree -----

  function Numbers(added: seq<AddedLine>): seq<nat> {
    seq(|added|, i requires 0 <= i < |added| => added[i].num)
  }

  function Project(files: seq<ParsedFile>): seq<NumberedFile> {
    seq(|files|, i requires 0 <= i < |files| => NumberedFile(files[i].filename, Numbers(files[i].addedLines)))
  }

  /** Within a named file, added lines come after an understood `@@` header. */
  predicate OpenedByHunks(tokens: seq<Token>, named: bool, hunk: bool)
    decreases |tokens|
  {
    tokens == [] ||
    match tokens[0]
    case FileLine(name) => OpenedByHunks(tokens[1..], name.Some?, false)
    case HunkLine(h) => OpenedByHunks(tokens[1..], named, hunk || h.Some?)
    case Plus(_) => (named ==> hunk) && OpenedByHunks(tokens[1..], named, hunk)
    case _ => OpenedByHunks(tokens[1..], named, hunk)
  }

  /** Within a named file, no empty line stands between an understood `@@` header and
      an added line of its hunk. */
  predicate NoBlankBeforeAdded(tokens: seq<Token>, named: bool, blank: bool)
    decreases |tokens|
  {
    tokens == [] ||
    match tokens[0]
    case FileLine(name) => NoBlankBeforeAdded(tokens[1..], name.Some?, false)
    case HunkLine(h) => NoBlankBeforeAdded(tokens[1..], named, blank && h.None?)
    case Plus(_) => (named ==> !blank) && NoBlankBeforeAdded(tokens[1..], named, blank)
    case Blank => NoBlankBeforeAdded(tokens[1..], named, true)
    case _ => NoBlankBeforeAdded(tokens[1..], named, blank)
  }

  /** Same files with as many added lines so far. */
  ghost predicate InStep(a: State, b: NumState) {
    a.file == b.file && |a.files| == |b.files| && (a.file.Some? ==> |a.added| == |b.numbers|)
  }

  ghost predicate SameSoFar(a: State, b: NumState) {
    Project(a.files) == b.files && (a.file.Some? ==> Numbers(a.added) == b.numbers)
  }

  lemma {:induction false} StepKeepsStep(a: State, b: NumState, t: Token)
    requires InStep(a, b)
    ensures InStep(Step(a, t), NumStep(b, t))
    ensures !SameSoFar(a, b) ==> !SameSoFar(Step(a, t), NumStep(b, t))
  {
    var a', b' := Step(a, t), NumStep(b, t);
    if SameSoFar(a', b') {
      match t {
        case FileLine(_) => FlushInjective(a, b);
        case Plus(_) =>
          if a.file.Some? {
            assert Numbers(a.added) == Numbers(a'.added)[..|a.added|];
            assert b.numbers == b'.numbers[..|b.numbers|];
          }
        case _ =>
      }
    }
  }

  lemma {:induction false} FlushInjective(a: State, b: NumState)
    requires InStep(a, b)
    ensures Project(Flush(a)) == FlushNumbers(b) <==> SameSoFar(a, b)
  {
    if a.file.Some? {
      var p := Project(Flush(a));
      assert p[..|a.files|] == Project(a.files);
      assert p[|a.files|] == NumberedFile(a.file.value, Numbers(a.added));
      var q := FlushNumbers(b);
      assert q[..|b.files|] == b.files && q[|b.files|] == NumberedFile(a.file.value, b.numbers);
      assert p == Project(a.files) + [NumberedFile(a.file.value, Numbers(a.added))];
    }
  }

  lemma {:induction false} OnceApart(a: State, b: NumState, tokens: seq<Token>)
    requires InStep(a, b) && !SameSoFar(a, b)
    ensures Project(Flush(Run(a, tokens))) != FlushNumbers(NumRun(b, tokens))
    decreases |tokens|
  {
    if tokens == [] {
      FlushInjective(a, b);
    } else {
      StepKeepsStep(a, b, tokens[0]);
      OnceApart(Step(a, tokens[0]), NumStep(b, tokens[0]), tokens[1..]);
    }
  }

  lemma {:induction false} StillTogether(a: State, b: NumState, t: Token)
    requires InStep(a, b) && SameSoFar(a, b)
    requires t.Plus? && a.file.Some? ==> a.line == b.line
    ensures SameSoFar(Step(a, t), NumStep(b, t))
  {
    match t {
      case FileLine(_) => FlushInjective(a, b);
      case Plus(c) =>
        if a.file.Some? {
          assert Numbers(a.added + [AddedLine(a.line, c)]) == Numbers(a.added) + [a.line];
        }
      case _ =>
    }
  }

  lemma {:induction false} ApartAtAdded(a: State, b: NumState, t: Token)
    requires InStep(a, b) && SameSoFar(a, b) && t.Plus? && a.file.Some? && a.line != b.line
    ensures !SameSoFar(Step(a, t), NumStep(b, t))
  {
    var a', b' := Step(a, t), NumStep(b, t);
    assert Numbers(a'.added)[|a.added|] == a.line && b'.numbers[|a.added|] == b.line;
  }

  /** While the counters are tied (exactly equal unless a blank line intervened), the
      outputs agree if and only if no blank line precedes an added line. */
  lemma {:induction false} AgreeFrom(a: State, b: NumState, tokens: seq<Token>, hunk: bool, blank: bool)
    requires InStep(a, b) && SameSoFar(a, b)
    requires OpenedByHunks(tokens, a.file.Some?, hunk)
    requires hunk && a.file.Some? ==> a.line >= b.line && (a.line == b.line <==> !blank)
    ensures Project(Flush(Run(a, tokens))) == FlushNumbers(NumRun(b, tokens))
            <==> NoBlankBeforeAdded(tokens, a.file.Some?, blank)
    decreases |tokens|
  {
    if tokens == [] {
      FlushInjective(a, b);
    } else {
      var t := tokens[0];
      var a', b' := Step(a, t), NumStep(b, t);
      StepKeepsStep(a, b, t);
      if t.Plus? && a.file.Some? && a.line != b.line {
        ApartAtAdded(a, b, t);
        OnceApart(a', b', tokens[1..]);
      } else {
        StillTogether(a, b, t);
        var hunk' := if t.FileLine? then false else hunk || (t.HunkLine? && t.header.Some?);
        var blank' := if t.FileLine? then false
                      else if t.HunkLine? && t.header.Some? then false
                      else blank || t.Blank?;
        AgreeFrom(a', b', tokens[1..], hunk', blank');
      }
    }
  }

  /** For a patch whose added lines follow understood hunk headers, the two parsers
      report the same files and line numbers if and only if no empty line stands
      between a hunk header and an added line of that hunk. */
  lemma {:induction false} LineNumberParsersAgree(lines: seq<string>)
    requires OpenedByHunks(LexAll(lines), false, false)
    ensures Project(Parse(lines)) == ParseNumbers(lines) <==> NoBlankBeforeAdded(LexAll(lines), false, false)
  {
    assert Project([]) == [];
    AgreeFrom(START, NUM_START, LexAll(lines), false, false);
  }

  /** In particular they agree on every such patch without empty lines. */
  lemma {:induction false} NonEmptyLinesAgree(lines: seq<string>)
    requires OpenedByHunks(LexAll(lines), false, false)
    requires "" !in lines
    ensures Project(Parse(lines)) == ParseNumbers(lines)
  {
    forall i | 0 <= i < |lines| ensures !LexAll(lines)[i].Blank? {
      assert lines[i] in lines;
    }
    NoBlanks(LexAll(lines), false);
    LineNumberParsersAgree(lines);
  }

  lemma {:induction false} NoBlanks(tokens: seq<Token>, named: bool)
    requires forall i :: 0 <= i < |tokens| ==> !tokens[i].Blank?
    ensures NoBlankBeforeAdded(tokens, named, false)
    decreases |tokens|
  {
    if tokens != [] {
      NoBlanks(tokens[1..], if tokens[0].FileLine? then tokens[0].name.Some? else named);
    }
  }

  // ----- The two versions of parse_git_patch -----

  /** Added and removed lines, stripped, blank ones dropped. */
  datatype FileText = FileText(filename: string, added: seq<string>, removed: seq<string>)

  /** issue_localize also notes whether the file is new. */
  datatype FileChange = FileChange(filename: string, added: seq<string>, removed: seq<string>, isNew: bool)

  method ParseGitPatch(lines: seq<string>) returns (files: seq<FileText>)
    ensures files == GitPatch(lines)
  {
    files := [];
    var currentFile: Option<string>, added: seq<string>, removed: seq<string> := None, [], [];
    for i := 0 to |lines|
      invariant FlushText(TextRun(TextState(files, currentFile, added, removed), lines[i..])) == GitPatch(lines)
    {
      var line := lines[i];
      assert lines[i..][1..] == lines[i + 1..];
      if "diff --git" <= line {
        if currentFile.Some? {
          files := files + [FileText(currentFile.value, added, removed)];
        }
        added, removed := [], [];
        currentFile := ParseFileHeader(line);
      } else if "+" <= line && !("+++" <= line) && currentFile.Some? {
        var content := Strip(line[1..]);
        if content != "" {
          added := added + [content];
        }
      } else if "-" <= line && !("---" <= line) && currentFile.Some? {
        var content := Strip(line[1..]);
        if content != "" {
          removed := removed + [content];
        }
      }
    }
    if currentFile.Some? {
      files := files + [FileText(currentFile.value, added, removed)];
    }
  }

  datatype TextState = TextState(files: seq<FileText>, file: Option<string>, added: seq<string>, removed: seq<string>)

  function FlushText(st: TextState): seq<FileText> {
    match st.file
    case None => st.files
    case Some(name) => st.files + [FileText(name, st.added, st.removed)]
  }

  function Collect(texts: seq<string>, line: string): seq<string>
    requires line != ""
  {
    var content := Strip(line[1..]);
    if content != "" then texts + [content] else texts
  }

  function TextStep(st: TextState, line: string): TextState {
    if "diff --git" <= line then TextState(FlushText(st), ParseFileHeader(line), [], [])
    else if "+" <= line && !("+++" <= line) && st.file.Some? then st.(added := Collect(st.added, line))
    else if "-" <= line && !("---" <= line) && st.file.Some? then st.(removed := Collect(st.removed, line))
    else st
  }

  function TextRun(st: TextState, lines: seq<string>): TextState
    decreases |lines|
  {
    if lines == [] then st else TextRun(TextStep(st, lines[0]), lines[1..])
  }

  function GitPatch(lines: seq<string>): seq<FileText> {
    FlushText(TextRun(TextState([], None, [], []), lines))
  }

  datatype ChangeState = ChangeState(files: seq<FileChange>, file: Option<string>,
                                     added: seq<string>, removed: seq<string>, isNew: bool)

  function FlushChange(st: ChangeState): seq<FileChange> {
    match st.file
    case None => st.files
    case Some(name) => st.files + [FileChange(name, st.added, st.removed, st.isNew)]
  }

  function ChangeStep(st: ChangeState, line: string): ChangeState {
    if "diff --git" <= line then ChangeState(FlushChange(st), ParseFileHeader(line), [], [], false)
    else if st.file.None? then st
    else if "new file mode" <= line then st.(isNew := true)
    else if "+" <= line && !("+++" <= line) then st.(added := Collect(st.added, line))
    else if "-" <= line && !("---" <= line) then st.(removed := Collect(st.removed, line))
    else st
  }

  function ChangeRun(st: ChangeState, lines: seq<string>): ChangeState
    decreases |lines|
  {
    if lines == [] then st else ChangeRun(ChangeStep(st, lines[0]), lines[1..])
  }

  function GitChanges(lines: seq<string>): seq<FileChange> {
    FlushChange(ChangeRun(ChangeState([], None, [], [], false), lines))
  }

  method ParseGitPatchWithNewFiles(lines: seq<string>) returns (files: seq<FileChange>)
    ensures files == GitChanges(lines)
  {
    files := [];
    var currentFile: Option<string>, added: seq<string>, removed: seq<string>, isNewFile := None, [], [], false;
    for i := 0 to |lines|
      invariant FlushChange(ChangeRun(ChangeState(files, currentFile, added, removed, isNewFile), lines[i..]))
                == GitChanges(lines)
    {
      var line := lines[i];
      assert lines[i..][1..] == lines[i + 1..];
      if "diff --git" <= line {
        if currentFile.Some? {
          files := files + [FileChange(currentFile.value, added, removed, isNewFile)];
        }
        added, removed, isNewFile := [], [], false;
        currentFile := ParseFileHeader(line);
      } else if currentFile.Some? && "new file mode" <= line {
        isNewFile := true;
      } else if currentFile.Some? {
        if "+" <= line && !("+++" <= line) {
          var content := Strip(line[1..]);
          if content != "" {
            added := added + [content];
          }
        } else if "-" <= line && !("---" <= line) {
          var content := Strip(line[1..]);
          if content != "" {
            removed := removed + [content];
          }
        }
      }
    }
    if currentFile.Some? {
      files := files + [FileChange(currentFile.value, added, removed, isNewFile)];
    }
  }

  function DropNew(files: seq<FileChange>): seq<FileText> {
    seq(|files|, i requires 0 <= i < |files| => FileText(files[i].filename, files[i].added, files[i].removed))
  }

  function Forget(st: ChangeState): TextState {
    TextState(DropNew(st.files), st.file, st.added, st.removed)
  }

  lemma {:induction false} ForgetStep(st: ChangeState, line: string)
    ensures Forget(ChangeStep(st, line)) == TextStep(Forget(st), line)
    ensures DropNew(FlushChange(st)) == FlushText(Forget(st))
  {
    if "new file mode" <= line {
      assert line[0] == 'n';
    }
    assert DropNew(FlushChange(st)) == FlushText(Forget(st));
  }

  lemma {:induction false} ForgetRun(st: ChangeState, lines: seq<string>)
    ensures Forget(ChangeRun(st, lines)) == TextRun(Forget(st), lines)
    decreases |lines|
  {
    if lines != [] {
      ForgetStep(st, lines[0]);
      ForgetRun(ChangeStep(st, lines[0]), lines[1..]);
    }
  }

  /** The two versions of `parse_git_patch` agree on file names, added and removed
      lines, for every input. */
  lemma {:induction false} TextParsersAgree(lines: seq<string>)
    ensures DropNew(GitChanges(lines)) == GitPatch(lines)
  {
    var start := ChangeState([], None, [], [], false);
    ForgetRun(start, lines);
    ForgetStep(ChangeRun(start, lines), "");
    assert Forget(start) == TextState([], None, [], []);
  }

  // ----- Where the line-number parsers differ -----

  lemma {:induction false} RunCons(st: State, num: NumState, t: Token, more: seq<Token>)
    ensures Run(st, [t] + more) == Run(Step(st, t), more)
    ensures NumRun(num, [t] + more) == NumRun(NumStep(num, t), more)
  {
    assert ([t] + more)[1..] == more;
  }

  lemma {:induction false} BlankCounts(name: string, h: Header, content: string)
    ensures var tokens := [FileLine(Some(name)), HunkLine(Some(h)), Blank, Plus(content)];
            FlushNumbers(NumRun(NUM_START, tokens)) == [NumberedFile(name, [h.newStart])] &&
            Project(Flush(Run(START, tokens))) == [NumberedFile(name, [h.newStart + 1])]
  {
    var t0, t1, t2, t3 := FileLine(Some(name)), HunkLine(Some(h)), Blank, Plus(content);
    var a1, b1 := Step(START, t0), NumStep(NUM_START, t0);
    var a2, b2 := Step(a1, t1), NumStep(b1, t1);
    var a3, b3 := Step(a2, t2), NumStep(b2, t2);
    assert [t3] + [] == [t3] && [t2] + [t3] == [t2, t3] && [t1] + [t2, t3] == [t1, t2, t3];
    assert [t0] + [t1, t2, t3] == [t0, t1, t2, t3];
    RunCons(START, NUM_START, t0, [t1, t2, t3]);
    RunCons(a1, b1, t1, [t2, t3]);
    RunCons(a2, b2, t2, [t3]);
    RunCons(a3, b3, t3, []);
    var a4, b4 := Step(a3, t3), NumStep(b3, t3);
    var none: seq<Token> := [];
    assert Run(a4, none) == a4 && NumRun(b4, none) == b4;
    var added := [AddedLine(h.newStart + 1, content)];
    assert b4.numbers == [h.newStart] && b4.files == [] && a4.added == added && a4.hunks == [h] && a4.files == [];
    assert FlushNumbers(b4) == [NumberedFile(name, [h.newStart])];
    assert Flush(a4) == [ParsedFile(name, added, [h])];
    assert Numbers(added) == [h.newStart + 1];
    assert Project([ParsedFile(name, added, [h])]) == [NumberedFile(name, [h.newStart + 1])];
  }

  lemma {:induction false} LexFour(a: string, b: string, c: string, d: string)
    ensures LexAll([a, b, c, d]) == [Lex(a), Lex(b), Lex(c), Lex(d)]
  {
  }

  lemma {:induction false} LexPlusX()
    ensures Lex("") == Blank && Lex("+x") == Plus("x")
  {
    assert "+x"[0] == '+' && "+x"[1..] == "x";
  }

  /** An empty line before an addition is counted by one parser and not by the other. */
  lemma {:induction false} EmptyLineMisleads(file: string, name: string, hunk: string, h: Header)
    requires Lex(file) == FileLine(Some(name)) && Lex(hunk) == HunkLine(Some(h))
    ensures var lines := [file, hunk, "", "+x"];
            ParseNumbers(lines) == [NumberedFile(name, [h.newStart])] &&
            Project(Parse(lines)) == [NumberedFile(name, [h.newStart + 1])]
  {
    LexPlusX();
    LexFour(file, hunk, "", "+x");
    BlankCounts(name, h, "x");
  }

  /** So it is for the header lines that git prints. */
  lemma {:induction false} PrintedEmptyLineMisleads(h: Header)
    ensures var lines := [PrintFileHeader("f", "f"), PrintHeader(h, ""), "", "+x"];
            ParseNumbers(lines) == [NumberedFile("f", [h.newStart])] &&
            Project(Parse(lines)) == [NumberedFile("f", [h.newStart + 1])]
  {
    FileHeaderRoundTrip("f", "f");
    assert ReadableNames("f", "f");
    HunkHeaderRoundTrip(h, "");
    EmptyLineMisleads(PrintFileHeader("f", "f"), "f", PrintHeader(h, ""), h);
  }
}
