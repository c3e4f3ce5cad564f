/** Adding the skills block to task Dockerfiles before an evaluation and taking it out
    again: edits and undo over a map from paths to file contents. */
module SkillsInject {
  import opened Sequences
  import opened Text

  type Files = map<string, string>

  // ----- Reading text, and lines -----

  /** Reading a text file: "\r\n" and a lone "\r" come out as "\n".  Writing keeps all characters. */
  function ReadText(raw: string): string {
    if raw == "" then ""
    else if raw[0] != '\r' then [raw[0]] + ReadText(raw[1..])
    else if |raw| >= 2 && raw[1] == '\n' then "\n" + ReadText(raw[2..])
    else "\n" + ReadText(raw[1..])
  }

  /** Where `str.splitlines` breaks; no "\r" is left in text that has been read. */
  predicate IsBreak(c: char) {
    var n := c as int;
    10 <= n <= 13 || 28 <= n <= 30 || n == 0x85 || n == 0x2028 || n == 0x2029
  }

  /** Length of the first line, with its line break. */
  function LineLength(s: string): (n: nat)
    requires s != ""
    ensures 1 <= n <= |s|
  {
    if IsBreak(s[0]) || |s| == 1 then 1 else 1 + LineLength(s[1..])
  }

  function SplitLines(s: string): seq<string>
    decreases |s|
  {
    if s == "" then [] else [s[..LineLength(s)]] + SplitLines(s[LineLength(s)..])
  }

  // ----- The block -----

  const MARK := "COPY skills"

  /** A comment and a copy instruction for each agent. */
  function Block(agents: seq<(string, string)>): string {
    if agents == [] then ""
    else "# " + agents[0].0 + "\n" + MARK + " " + agents[0].1 + "\n" + Block(agents[1..])
  }

  const AGENTS := [
    ("Claude Code", "/root/.claude/skills"),
    ("Claude Code (Harbor compatibility)", "/etc/claude-code/.claude/skills"),
    ("Codex", "/root/.codex/skills"),
    ("OpenCode", "/root/.opencode/skill"),
    ("Goose", "/root/.goose/skills"),
    ("Factory", "/root/.factory/skills"),
    ("Portable agents format (Goose, Amp)", "/root/.agents/skills")
  ]

  function Inserted(): string { "\n" + Block(AGENTS) }

  // ----- Where it goes -----

  /** `upper` on the letters that matter: the dotless i also becomes an I. */
  function UpperChar(c: char): char {
    if 'a' <= c <= 'z' then (c as int - 32) as char else if c == '\U{0131}' then 'I' else c
  }

  predicate IsWorkdir(line: string) {
    var t := Strip(line);
    |t| >= 7 && forall i :: 0 <= i < 7 ==> UpperChar(t[i]) == "WORKDIR"[i]
  }

  lemma {:induction false} SameLetter(c: char, letter: char, small: char)
    requires 'A' <= letter <= 'Z' && small as int == letter as int + 32 && c as int != 0x131
    ensures UpperChar(c) == letter <==> LowerChar(c) == small
  {
  }

  lemma {:induction false} SevenLetters(t: string)
    requires |t| == 7 && forall i :: 0 <= i < 7 ==> t[i] as int != 0x131
    ensures (forall i :: 0 <= i < 7 ==> UpperChar(t[i]) == "WORKDIR"[i]) <==> Lower(t) == "workdir"
  {
    SameLetter(t[0], 'W', 'w');
    SameLetter(t[1], 'O', 'o');
    SameLetter(t[2], 'R', 'r');
    SameLetter(t[3], 'K', 'k');
    SameLetter(t[4], 'D', 'd');
    SameLetter(t[5], 'I', 'i');
    SameLetter(t[6], 'R', 'r');
    assert Lower(t) == [LowerChar(t[0]), LowerChar(t[1]), LowerChar(t[2]), LowerChar(t[3]), LowerChar(t[4]), LowerChar(t[5]), LowerChar(t[6])];
    assert "workdir" == ['w', 'o', 'r', 'k', 'd', 'i', 'r'] && "WORKDIR" == ['W', 'O', 'R', 'K', 'D', 'I', 'R'];
  }

  /** A WORKDIR line begins with this word in any case, after white space. */
  lemma {:induction false} WorkdirLines(line: string)
    requires forall i :: 0 <= i < |line| ==> line[i] as int != 0x131
    ensures IsWorkdir(line) <==> |Strip(line)| >= 7 && Lower(Strip(line)[..7]) == "workdir"
  {
    var s := Strip(line);
    if |s| >= 7 {
      forall i | 0 <= i < |s| ensures s[i] as int != 0x131 { StripHas(line, i); }
      SevenLetters(s[..7]);
      assert forall i :: 0 <= i < 7 ==> s[..7][i] == s[i];
    }
  }

  lemma {:induction false} StripHas(line: string, i: nat)
    requires i < |Strip(line)|
    ensures exists j :: 0 <= j < |line| && line[j] == Strip(line)[i]
  {
    var left := TrimLeft(line, IsSpace);
    TrimLeftIsSuffix(line, IsSpace);
    TrimRightIsPrefix(left, IsSpace);
    assert left[i] == line[|line| - |left| + i];
  }

  /** Index after the last WORKDIR line, or 0. */
  function AfterLastWorkdir(lines: seq<string>): (n: nat)
    ensures n <= |lines|
  {
    if lines == [] then 0
    else if IsWorkdir(lines[|lines| - 1]) then |lines|
    else AfterLastWorkdir(lines[..|lines| - 1])
  }

  function InsertAt(lines: seq<string>): (n: nat)
    ensures n <= |lines|
  {
    if AfterLastWorkdir(lines) == 0 then |lines| else AfterLastWorkdir(lines)
  }

  function Inject(text: string): string {
    var lines := SplitLines(text);
    Flatten(lines[..InsertAt(lines)] + ["\n", Block(AGENTS)] + lines[InsertAt(lines)..])
  }

  /** The text before and after the insertion. */
  function Head(text: string): string { Flatten(SplitLines(text)[..InsertAt(SplitLines(text))]) }

  function Tail(text: string): string { Flatten(SplitLines(text)[InsertAt(SplitLines(text))..]) }

  // ----- The files -----

  predicate Touched(files: Files, path: string) {
    path in files && !Contains(ReadText(files[path]), MARK)
  }

  function InjectOne(files: Files, path: string): Files {
    if Touched(files, path) then files[path := Inject(ReadText(files[path]))] else files
  }

  function InjectAll(files: Files, paths: seq<string>): Files {
    if paths == [] then files else InjectAll(InjectOne(files, paths[0]), paths[1..])
  }

  /** The pairs of a path and its original text that the injection records. */
  function Reverts(files: Files, paths: seq<string>): seq<(string, string)> {
    if paths == [] then []
    else RevertOf(files, paths[0]) + Reverts(InjectOne(files, paths[0]), paths[1..])
  }

  function RevertAll(files: Files, reverts: seq<(string, string)>): Files
    decreases |reverts|
  {
    if reverts == [] then files else RevertAll(files[reverts[0].0 := reverts[0].1], reverts[1..])
  }

  class TaskFiles {
    var files: Files

    constructor (files: Files)
      ensures this.files == files
    {
      this.files := files;
    }

    method InsertPosition(lines: seq<string>) returns (insertAt: nat)
      ensures insertAt == InsertAt(lines)
    {
      insertAt := |lines|;
      for i := 0 to |lines|
        invariant insertAt == if AfterLastWorkdir(lines[..i]) == 0 then |lines| else AfterLastWorkdir(lines[..i])
      {
        assert lines[..i + 1][..i] == lines[..i];
        if IsWorkdir(lines[i]) {
          insertAt := i + 1;
        }
      }
      assert lines[..|lines|] == lines;
    }

    /** Reading fails for a path without a file, and a write can fail and leave anything
        behind; the error then ends the call and no pair is returned. */
    method InjectSkills(paths: seq<string>) returns (ok: bool, reverts: seq<(string, string)>)
      modifies this
      ensures ok ==> files == InjectAll(old(files), paths) && reverts == Reverts(old(files), paths)
      ensures !ok ==> reverts == []
      ensures !ok ==> exists k :: StoppedAt(old(files), paths, k, files)
    {
      reverts := [];
      for i := 0 to |paths|
        invariant files == InjectAll(old(files), paths[..i])
        invariant reverts == Reverts(old(files), paths[..i])
      {
        var path := paths[i];
        InjectNext(old(files), paths, i);
        var readable: bool := *;
        if path !in files || !readable {
          var left := if path in files then files[path] else "";
          assert files == SpoilOne(files, path, left);
          StoppedHere(old(files), paths, i, left);
          return false, [];
        }
        var original := ReadText(files[path]);
        if Contains(original, MARK) {
          continue;
        }
        var lines := SplitLines(original);
        var insertAt := InsertPosition(lines);
        var written: bool := *;
        if !written {
          var left: string := *;
          files := files[path := left];
          StoppedHere(old(files), paths, i, left);
          return false, [];
        }
        files := files[path := Flatten(lines[..insertAt] + ["\n", Block(AGENTS)] + lines[insertAt..])];
        reverts := reverts + [(path, original)];
      }
      assert paths[..|paths|] == paths;
      ok := true;
    }

    /** A write that fails is logged and skipped; the file may then hold anything. */
    method RevertDockerfiles(reverts: seq<(string, string)>) returns (failed: set<string>)
      modifies this
      ensures forall p :: p in files ==> p in RevertAll(old(files), reverts)
      ensures forall p :: p in RevertAll(old(files), reverts) && p !in failed ==>
                p in files && files[p] == RevertAll(old(files), reverts)[p]
      ensures forall p :: p in failed ==> exists i :: 0 <= i < |reverts| && reverts[i].0 == p
    {
      failed := {};
      for i := 0 to |reverts|
        invariant forall p :: p in files ==> p in RevertAll(old(files), reverts[..i])
        invariant forall p :: p in RevertAll(old(files), reverts[..i]) && p !in failed ==>
                    p in files && files[p] == RevertAll(old(files), reverts[..i])[p]
        invariant forall p :: p in failed ==> exists j :: 0 <= j < |reverts| && reverts[j].0 == p
      {
        RevertNext(old(files), reverts, i);
        var (path, original) := reverts[i];
        var written: bool := *;
        if written {
          files := files[path := original];
        } else {
          var left: string := *;
          files := files[path := left];
          failed := failed + {path};
        }
      }
      assert reverts[..|reverts|] == reverts;
    }
  }

  /** The files after an error at `path`, which it may leave with any content. */
  function SpoilOne(files: Files, path: string, left: string): Files {
    if path in files then files[path := left] else files
  }

  /** What an injection that an error ended at the k-th path leaves. */
  ghost predicate StoppedAt(files: Files, paths: seq<string>, k: int, after: Files) {
    0 <= k < |paths| && exists left :: after == SpoilOne(InjectAll(files, paths[..k]), paths[k], left)
  }

  lemma {:induction false} StoppedHere(files: Files, paths: seq<string>, k: nat, left: string)
    requires k < |paths|
    ensures StoppedAt(files, paths, k, SpoilOne(InjectAll(files, paths[..k]), paths[k], left))
  {
  }

  function RevertOf(files: Files, path: string): seq<(string, string)> {
    if Touched(files, path) then [(path, ReadText(files[path]))] else []
  }

  lemma {:induction false} InjectNext(files: Files, paths: seq<string>, i: nat)
    requires i < |paths|
    ensures InjectAll(files, paths[..i + 1]) == InjectOne(InjectAll(files, paths[..i]), paths[i])
    ensures Reverts(files, paths[..i + 1]) == Reverts(files, paths[..i]) + RevertOf(InjectAll(files, paths[..i]), paths[i])
  {
    assert paths[..i + 1] == paths[..i] + [paths[i]];
    InjectSum(files, paths[..i], [paths[i]]);
    RevertsSum(files, paths[..i], [paths[i]]);
    InjectOnly(InjectAll(files, paths[..i]), paths[i]);
  }

  lemma {:induction false} InjectOnly(files: Files, path: string)
    ensures InjectAll(files, [path]) == InjectOne(files, path) && Reverts(files, [path]) == RevertOf(files, path)
  {
    assert [path][1..] == [];
  }

  lemma {:induction false} InjectCons(files: Files, path: string, paths: seq<string>)
    ensures InjectAll(files, [path] + paths) == InjectAll(InjectOne(files, path), paths)
    ensures Reverts(files, [path] + paths) == RevertOf(files, path) + Reverts(InjectOne(files, path), paths)
  {
    assert ([path] + paths)[1..] == paths;
  }

  lemma {:induction false} InjectSum(files: Files, a: seq<string>, b: seq<string>)
    ensures InjectAll(files, a + b) == InjectAll(InjectAll(files, a), b)
    decreases |a|
  {
    if a == [] {
      assert a + b == b;
    } else {
      var p, rest := a[0], a[1..];
      assert a == [p] + rest && a + b == [p] + (rest + b);
      InjectCons(files, p, rest + b);
      InjectSum(InjectOne(files, p), rest, b);
    }
  }

  lemma {:induction false} RevertsSum(files: Files, a: seq<string>, b: seq<string>)
    ensures Reverts(files, a + b) == Reverts(files, a) + Reverts(InjectAll(files, a), b)
    decreases |a|
  {
    if a == [] {
      assert a + b == b;
    } else {
      var p, rest := a[0], a[1..];
      assert a == [p] + rest && a + b == [p] + (rest + b);
      InjectCons(files, p, rest + b);
      RevertsSum(InjectOne(files, p), rest, b);
    }
  }

  lemma {:induction false} RevertNext(files: Files, reverts: seq<(string, string)>, i: nat)
    requires i < |reverts|
    ensures RevertAll(files, reverts[..i + 1]) == RevertAll(files, reverts[..i])[reverts[i].0 := reverts[i].1]
    decreases i
  {
    if i == 0 {
      assert reverts[..1] == [reverts[0]];
    } else {
      assert reverts[..i + 1][1..] == reverts[1..][..i];
      assert reverts[..i][1..] == reverts[1..][..i - 1];
      RevertNext(files[reverts[0].0 := reverts[0].1], reverts[1..], i - 1);
    }
  }

  // ----- What is inserted, and where lines break -----

  /** A comment and a copy instruction. */
  function Instruction(name: string, dir: string): string { "# " + name + "\nCOPY skills " + dir + "\n" }

  lemma {:induction false} FirstInstruction(agents: seq<(string, string)>, name: string, dir: string)
    requires agents != [] && agents[0] == (name, dir)
    ensures Block(agents) == Instruction(name, dir) + Block(agents[1..])
  {
    assert "\n" + "COPY skills" + " " == "\nCOPY skills ";
  }

  /** The block copies the skills to the directories of seven agents. */
  lemma {:induction false} BlockIs()
    ensures Block(AGENTS) ==
            Instruction("Claude Code", "/root/.claude/skills") +
            (Instruction("Claude Code (Harbor compatibility)", "/etc/claude-code/.claude/skills") +
            (Instruction("Codex", "/root/.codex/skills") +
            (Instruction("OpenCode", "/root/.opencode/skill") +
            (Instruction("Goose", "/root/.goose/skills") +
            (Instruction("Factory", "/root/.factory/skills") +
            (Instruction("Portable agents format (Goose, Amp)", "/root/.agents/skills") + ""))))))
  {
    FirstInstruction(AGENTS, "Claude Code", "/root/.claude/skills");
    SecondAndThird();
    LastFour();
  }

  lemma {:induction false} SecondAndThird()
    ensures Block(AGENTS[1..]) ==
            Instruction("Claude Code (Harbor compatibility)", "/etc/claude-code/.claude/skills") +
            (Instruction("Codex", "/root/.codex/skills") + Block(AGENTS[3..]))
  {
    FirstInstruction(AGENTS[1..], "Claude Code (Harbor compatibility)", "/etc/claude-code/.claude/skills");
    FirstInstruction(AGENTS[2..], "Codex", "/root/.codex/skills");
    assert AGENTS[1..][1..] == AGENTS[2..] && AGENTS[2..][1..] == AGENTS[3..];
  }

  lemma {:induction false} LastFour()
    ensures Block(AGENTS[3..]) ==
            Instruction("OpenCode", "/root/.opencode/skill") +
            (Instruction("Goose", "/root/.goose/skills") +
            (Instruction("Factory", "/root/.factory/skills") +
            (Instruction("Portable agents format (Goose, Amp)", "/root/.agents/skills") + "")))
  {
    FirstInstruction(AGENTS[3..], "OpenCode", "/root/.opencode/skill");
    FirstInstruction(AGENTS[4..], "Goose", "/root/.goose/skills");
    assert AGENTS[3..][1..] == AGENTS[4..] && AGENTS[4..][1..] == AGENTS[5..];
    LastTwo();
  }

  lemma {:induction false} LastTwo()
    ensures Block(AGENTS[5..]) ==
            Instruction("Factory", "/root/.factory/skills") +
            (Instruction("Portable agents format (Goose, Amp)", "/root/.agents/skills") + "")
  {
    FirstInstruction(AGENTS[5..], "Factory", "/root/.factory/skills");
    FirstInstruction(AGENTS[6..], "Portable agents format (Goose, Amp)", "/root/.agents/skills");
    assert AGENTS[5..][1..] == AGENTS[6..] && AGENTS[6..][1..] == [];
  }

  /** A file is left alone exactly if it holds the words of a copy instruction already. */
  lemma {:induction false} TouchedUnlessCopied(files: Files, path: string)
    requires path in files
    ensures Touched(files, path) <==> !Contains(ReadText(files[path]), "COPY skills")
    ensures InjectAll(files, [path]) == files || Touched(files, path)
  {
    InjectOnly(files, path);
  }

  /** Where lines break in ASCII text: after a line feed, a vertical tab, a form feed, a
      carriage return, and the separators 28 to 30. */
  lemma {:induction false} AsciiBreaks(c: char)
    requires c as int < 128
    ensures IsBreak(c) <==>
            c == '\n' || c == '\U{0b}' || c == '\U{0c}' || c == '\r' || c == '\U{1c}' || c == '\U{1d}' || c == '\U{1e}'
  {
  }

  // ----- Lines and text -----

  /** Reading leaves exactly the texts without "\r" alone, and its results have none. */
  lemma {:induction false} ReadTextKeeps(raw: string)
    ensures !Has(ReadText(raw), '\r')
    ensures ReadText(raw) == raw <==> !Has(raw, '\r')
    decreases |raw|
  {
    if raw != "" {
      var rest := if raw[0] == '\r' && |raw| >= 2 && raw[1] == '\n' then raw[2..] else raw[1..];
      ReadTextKeeps(rest);
      if raw[0] == '\r' {
        assert ReadText(raw)[0] == '\n';
      } else {
        assert forall i :: 1 <= i < |raw| ==> raw[i] == rest[i - 1];
        assert ReadText(raw)[0] == raw[0] && ReadText(raw)[1..] == ReadText(rest);
        assert raw[1..] == rest;
      }
    }
  }

  lemma {:induction false} ReadPrefix(a: string, rest: string)
    requires !Has(a, '\r')
    ensures ReadText(a + rest) == a + ReadText(rest)
  {
    if a == "" {
      assert a + rest == rest;
    } else {
      assert a == [a[0]] + a[1..] && a[0] != '\r';
      HasSum([a[0]], a[1..], '\r');
      ReadPrefix(a[1..], rest);
      assert (a + rest)[1..] == a[1..] + rest;
    }
  }

  /** Reading turns "\r\n" and a lone "\r" into "\n", and keeps the rest. */
  lemma {:induction false} ReadTextIs(a: string, b: string)
    requires !Has(a, '\r')
    ensures ReadText(a + ("\r\n" + b)) == a + ("\n" + ReadText(b))
    ensures b == "" || b[0] != '\n' ==> ReadText(a + ("\r" + b)) == a + ("\n" + ReadText(b))
  {
    ReadPrefix(a, "\r\n" + b);
    ReadPrefix(a, "\r" + b);
    assert ("\r\n" + b)[2..] == b && ("\r" + b)[1..] == b;
  }

  lemma {:induction false} FlattenSplit(s: string)
    ensures Flatten(SplitLines(s)) == s
    decreases |s|
  {
    if s != "" {
      var line, rest := s[..LineLength(s)], s[LineLength(s)..];
      assert s == line + rest;
      FlattenSplit(rest);
      FlattenCons(line, SplitLines(rest));
    }
  }

  lemma {:induction false} LineLengthOf(s: string, t: string)
    requires s != "" && (IsBreak(s[LineLength(s) - 1]) || LineLength(s) < |s|)
    ensures LineLength(s + t) == LineLength(s)
  {
    if !(IsBreak(s[0]) || |s| == 1) {
      assert (s + t)[1..] == s[1..] + t;
      LineLengthOf(s[1..], t);
    }
  }

  lemma {:induction false} LineLengthBreak(s: string)
    requires s != "" && IsBreak(s[|s| - 1])
    ensures IsBreak(s[LineLength(s) - 1])
  {
    if !(IsBreak(s[0]) || |s| == 1) {
      LineLengthBreak(s[1..]);
    }
  }

  /** Splitting after a line break splits the two sides on their own. */
  lemma {:induction false} SplitSum(s: string, t: string)
    requires s == "" || IsBreak(s[|s| - 1])
    ensures SplitLines(s + t) == SplitLines(s) + SplitLines(t)
    decreases |s|
  {
    if s == "" {
      assert s + t == t;
    } else {
      var n := LineLength(s);
      LineLengthBreak(s);
      LineLengthOf(s, t);
      assert (s + t)[..n] == s[..n] && (s + t)[n..] == s[n..] + t;
      SplitSum(s[n..], t);
      Assoc([s[..n]], SplitLines(s[n..]), SplitLines(t));
    }
  }

  lemma {:induction false} FirstLine(s: string)
    requires s != "" && LineLength(s) < |s|
    ensures IsBreak(s[LineLength(s) - 1])
    ensures SplitLines(s[..LineLength(s)]) == [s[..LineLength(s)]]
  {
    var n := LineLength(s);
    FirstLineEnds(s);
    assert s[..n][n..] == "" && s[..n][..n] == s[..n];
  }

  lemma {:induction false} FirstLineEnds(s: string)
    requires s != ""
    ensures LineLength(s) < |s| ==> IsBreak(s[LineLength(s) - 1])
    ensures LineLength(s[..LineLength(s)]) == LineLength(s)
  {
    if !(IsBreak(s[0]) || |s| == 1) {
      FirstLineEnds(s[1..]);
      var n := LineLength(s);
      assert s[..n][1..] == s[1..][..n - 1];
    }
  }

  lemma {:induction false} SplitHead(s: string, k: nat)
    requires k <= |SplitLines(s)|
    ensures SplitLines(Flatten(SplitLines(s)[..k])) == SplitLines(s)[..k]
    decreases |s|
  {
    var lines := SplitLines(s);
    if k == |lines| {
      assert lines[..k] == lines;
      FlattenSplit(s);
    } else if k > 0 {
      var n := LineLength(s);
      var rest := SplitLines(s[n..]);
      SplitHead(s[n..], k - 1);
      assert lines[..k] == [s[..n]] + rest[..k - 1];
      FlattenCons(s[..n], rest[..k - 1]);
      FirstLine(s);
      SplitSum(s[..n], Flatten(rest[..k - 1]));
    }
  }

  lemma {:induction false} SplitTail(s: string, k: nat)
    requires k <= |SplitLines(s)|
    ensures SplitLines(Flatten(SplitLines(s)[k..])) == SplitLines(s)[k..]
    decreases |s|
  {
    var lines := SplitLines(s);
    if k == 0 {
      assert lines[0..] == lines;
      FlattenSplit(s);
    } else {
      var rest := SplitLines(s[LineLength(s)..]);
      assert lines[k..] == rest[k - 1..];
      SplitTail(s[LineLength(s)..], k - 1);
    }
  }

  lemma {:induction false} LastWorkdirIsLast(lines: seq<string>)
    ensures forall i :: AfterLastWorkdir(lines) <= i < |lines| ==> !IsWorkdir(lines[i])
    ensures AfterLastWorkdir(lines) > 0 ==> IsWorkdir(lines[AfterLastWorkdir(lines) - 1])
  {
    if lines != [] && !IsWorkdir(lines[|lines| - 1]) {
      LastWorkdirIsLast(lines[..|lines| - 1]);
    }
  }

  // ----- The edit of one file -----

  lemma {:induction false} InjectParts(text: string)
    ensures text == Head(text) + Tail(text)
    ensures Inject(text) == Head(text) + Inserted() + Tail(text)
  {
    var lines := SplitLines(text);
    var at := InsertAt(lines);
    FlattenSplit(text);
    FlattenAround(lines, at, "\n", Block(AGENTS));
  }

  lemma {:induction false} FlattenAround(lines: seq<string>, at: nat, a: string, b: string)
    requires at <= |lines|
    ensures Flatten(lines) == Flatten(lines[..at]) + Flatten(lines[at..])
    ensures Flatten(lines[..at] + [a, b] + lines[at..]) == Flatten(lines[..at]) + (a + b) + Flatten(lines[at..])
  {
    assert lines == lines[..at] + lines[at..];
    FlattenSum(lines[..at], lines[at..]);
    FlattenSum(lines[..at] + [a, b], lines[at..]);
    FlattenSum(lines[..at], [a, b]);
    assert [b][1..] == [];
    assert Flatten([b]) == b + "" == b;
    assert [a, b][1..] == [b];
    assert Flatten([a, b]) == a + b;
  }

  /** Deleting the inserted characters gives the text back. */
  lemma {:induction false} DeletingTheBlock(text: string)
    ensures var k := |Head(text)|;
            k <= |text| && Inject(text) == text[..k] + Inserted() + text[k..] &&
            Inject(text)[..k] + Inject(text)[k + |Inserted()|..] == text
  {
    InjectParts(text);
    Splice(Head(text), Inserted(), Tail(text));
  }

  lemma {:induction false} Splice(pre: string, mid: string, post: string)
    ensures var s := pre + mid + post;
            s[..|pre|] + s[|pre| + |mid|..] == pre + post &&
            (pre + post)[..|pre|] == pre && (pre + post)[|pre|..] == post
  {
  }

  predicate AnyWorkdir(lines: seq<string>) { exists i :: 0 <= i < |lines| && IsWorkdir(lines[i]) }

  /** `before` ends with the last WORKDIR line of the two, or there is none and no `after`. */
  ghost predicate EndsAtWorkdir(before: seq<string>, after: seq<string>) {
    !AnyWorkdir(after) &&
    if AnyWorkdir(before + after) then before != [] && IsWorkdir(before[|before| - 1]) else after == []
  }

  lemma {:induction false} InsertPlace(lines: seq<string>)
    ensures EndsAtWorkdir(lines[..InsertAt(lines)], lines[InsertAt(lines)..])
  {
    LastWorkdirIsLast(lines);
    var at := InsertAt(lines);
    assert lines == lines[..at] + lines[at..];
    forall i | 0 <= i < |lines[at..]| ensures !IsWorkdir(lines[at..][i]) {
      assert lines[at..][i] == lines[at + i];
    }
  }

  /** The block follows the last WORKDIR line, or everything if there is no such line. */
  lemma {:induction false} BlockFollowsWorkdir(text: string)
    ensures SplitLines(text) == SplitLines(Head(text)) + SplitLines(Tail(text))
    ensures EndsAtWorkdir(SplitLines(Head(text)), SplitLines(Tail(text)))
  {
    InsertPlace(SplitLines(text));
    SplitParts(text);
  }

  lemma {:induction false} SplitParts(text: string)
    ensures var lines := SplitLines(text);
            SplitLines(Head(text)) == lines[..InsertAt(lines)] && SplitLines(Tail(text)) == lines[InsertAt(lines)..] &&
            lines == lines[..InsertAt(lines)] + lines[InsertAt(lines)..]
  {
    var at := InsertAt(SplitLines(text));
    SplitTail(text, at);
    SplitHead(text, at);
  }

  lemma {:induction false} OwnLines(head: string, block: string, tail: string)
    requires block != "" && block[|block| - 1] == '\n'
    ensures SplitLines(head + ("\n" + block) + tail) == SplitLines(head + "\n") + SplitLines(block) + SplitLines(tail)
  {
    var a := head + "\n";
    assert head + ("\n" + block) + tail == (a + block) + tail;
    SplitSum(a + block, tail);
    SplitSum(a, block);
  }

  /** No instruction of the file runs into the block: its lines stay whole lines. */
  lemma {:induction false} BlockHasItsOwnLines(text: string)
    ensures SplitLines(Inject(text)) == SplitLines(Head(text) + "\n") + SplitLines(Block(AGENTS)) + SplitLines(Tail(text))
  {
    InjectParts(text);
    BlockEndsLine(AGENTS);
    OwnLines(Head(text), Block(AGENTS), Tail(text));
  }

  lemma {:induction false} BlockEndsLine(agents: seq<(string, string)>)
    requires agents != []
    ensures Block(agents) != "" && Block(agents)[|Block(agents)| - 1] == '\n'
  {
    if |agents| > 1 {
      BlockEndsLine(agents[1..]);
    } else {
      assert Block(agents[1..]) == "";
    }
  }

  // ----- The edit of many files, and its undoing -----

  ghost predicate Plain(agent: (string, string)) { !Has(agent.0, '\r') && !Has(agent.1, '\r') }

  ghost predicate NoReturns(agents: seq<(string, string)>) {
    forall i :: 0 <= i < |agents| ==> Plain(agents[i])
  }

  lemma {:induction false} BlockText(agents: seq<(string, string)>)
    requires NoReturns(agents)
    ensures !Has(Block(agents), '\r')
    ensures agents != [] ==> Contains(Block(agents), MARK)
  {
    if agents != [] {
      var (name, dir) := agents[0];
      BlockText(agents[1..]);
      AgentText(name, dir, Block(agents[1..]));
    }
  }

  lemma {:induction false} AgentText(name: string, dir: string, rest: string)
    requires !Has(name, '\r') && !Has(dir, '\r') && !Has(rest, '\r')
    ensures var text := "# " + name + "\n" + MARK + " " + dir + "\n" + rest; !Has(text, '\r') && Contains(text, MARK)
  {
    var before, after := "# " + name + "\n", " " + dir + "\n" + rest;
    NoReturnIn("# ", name, "\n");
    NoReturnIn(" ", dir, "\n");
    HasSum(" " + dir + "\n", rest, '\r');
    NoReturnIn(before, MARK, after);
    assert "# " + name + "\n" + MARK + " " + dir + "\n" + rest == before + MARK + after;
    ContainsInside(before, MARK, after);
  }

  lemma {:induction false} NoReturnIn(a: string, b: string, c: string)
    requires !Has(a, '\r') && !Has(b, '\r') && !Has(c, '\r')
    ensures !Has(a + b + c, '\r')
  {
    HasSum(a, b, '\r');
    HasSum(a + b, c, '\r');
  }

  lemma {:induction false} MarkedText(head: string, block: string, tail: string, mark: string)
    requires !Has(head + tail, '\r') && !Has(block, '\r') && Contains(block, mark)
    ensures !Has(head + ("\n" + block) + tail, '\r') && Contains(head + ("\n" + block) + tail, mark)
  {
    HasSum(head, tail, '\r');
    HasSum("\n", block, '\r');
    HasSum(head, "\n" + block, '\r');
    HasSum(head + ("\n" + block), tail, '\r');
    ContainsAround(head + "\n", block, tail, mark);
    assert head + "\n" + block + tail == head + ("\n" + block) + tail;
  }

  /** An injected file is read back as it was written, and it carries the mark. */
  lemma {:induction false} InjectedIsMarked(text: string)
    requires !Has(text, '\r')
    ensures ReadText(Inject(text)) == Inject(text) && Contains(Inject(text), MARK)
  {
    AgentsText();
    BlockText(AGENTS);
    InjectParts(text);
    MarkedText(Head(text), Block(AGENTS), Tail(text), MARK);
    ReadTextKeeps(Inject(text));
  }

  lemma {:induction false} FirstAgents(i: nat)
    requires i < 3
    ensures Plain(AGENTS[i])
  {
  }

  lemma {:induction false} LastAgents(i: nat)
    requires 3 <= i < 7
    ensures Plain(AGENTS[i])
  {
  }

  lemma {:induction false} AgentsText()
    ensures NoReturns(AGENTS) && AGENTS != []
  {
    forall i | 0 <= i < |AGENTS| ensures Plain(AGENTS[i]) {
      if i < 3 { FirstAgents(i); } else { LastAgents(i); }
    }
  }

  lemma {:induction false} InjectedIsUntouched(files: Files, path: string)
    ensures !Touched(InjectOne(files, path), path)
  {
    if Touched(files, path) {
      ReadTextKeeps(files[path]);
      InjectedIsMarked(ReadText(files[path]));
    }
  }

  /** Path by path, whatever the order and however often a path is listed. */
  lemma {:induction false} InjectAllAt(files: Files, paths: seq<string>, path: string)
    ensures path in InjectAll(files, paths) <==> path in files
    ensures path in files ==>
              InjectAll(files, paths)[path] == if path in paths then InjectOne(files, path)[path] else files[path]
    decreases |paths|
  {
    if paths != [] {
      var first := InjectOne(files, paths[0]);
      InjectAllAt(first, paths[1..], path);
      if path == paths[0] {
        InjectedIsUntouched(files, path);
      } else {
        assert path in paths <==> path in paths[1..];
      }
    }
  }

  lemma {:induction false} AllUntouched(files: Files, paths: seq<string>, path: string)
    requires path in paths
    ensures !Touched(InjectAll(files, paths), path)
  {
    InjectAllAt(files, paths, path);
    if path in files {
      InjectedIsUntouched(files, path);
    }
  }

  /** Injecting twice is injecting once, and the second time records nothing. */
  lemma {:induction false} InjectTwice(files: Files, paths: seq<string>)
    ensures InjectAll(InjectAll(files, paths), paths) == InjectAll(files, paths)
    ensures Reverts(InjectAll(files, paths), paths) == []
  {
    forall p | p in paths ensures !Touched(InjectAll(files, paths), p) { AllUntouched(files, paths, p); }
    NothingToInject(InjectAll(files, paths), paths);
  }

  lemma {:induction false} NothingToInject(files: Files, paths: seq<string>)
    requires forall p :: p in paths ==> !Touched(files, p)
    ensures InjectAll(files, paths) == files && Reverts(files, paths) == []
  {
    if paths != [] {
      NothingToInject(files, paths[1..]);
    }
  }

  /** A recorded pair is a touched path of the list with its original text. */
  ghost predicate IsRecord(files: Files, paths: seq<string>, r: (string, string)) {
    r.0 in paths && Touched(files, r.0) && r.1 == ReadText(files[r.0])
  }

  lemma {:induction false} RecordOf(files: Files, path: string, r: (string, string))
    ensures r in RevertOf(files, path) <==> r.0 == path && IsRecord(files, [path], r)
  {
  }

  lemma {:induction false} OtherRecord(files: Files, path: string, rest: seq<string>, r: (string, string))
    ensures IsRecord(InjectOne(files, path), rest, r) <==> r.0 != path && IsRecord(files, rest, r)
  {
    if r.0 == path {
      InjectedIsUntouched(files, path);
    }
  }

  /** Exactly the touched paths of the list are recorded, each with its original text. */
  lemma {:induction false} RecordsAre(files: Files, paths: seq<string>, r: (string, string))
    ensures r in Reverts(files, paths) <==> IsRecord(files, paths, r)
    decreases |paths|
  {
    if paths != [] {
      var p, rest := paths[0], paths[1..];
      RecordOf(files, p, r);
      RecordsAre(InjectOne(files, p), rest, r);
      OtherRecord(files, p, rest, r);
      assert r.0 in paths <==> r.0 == p || r.0 in rest;
      var here, later := RevertOf(files, p), Reverts(InjectOne(files, p), rest);
      assert r in here + later <==> r in here || r in later;
    }
  }

  ghost predicate DistinctPaths(reverts: seq<(string, string)>) {
    forall i, j :: 0 <= i < j < |reverts| ==> reverts[i].0 != reverts[j].0
  }

  /** Each path is recorded at most once, even if the list repeats it. */
  lemma {:induction false} RecordedOnce(files: Files, paths: seq<string>)
    ensures DistinctPaths(Reverts(files, paths))
    decreases |paths|
  {
    if paths != [] {
      var p, rest := paths[0], paths[1..];
      var next := InjectOne(files, p);
      RecordedOnce(next, rest);
      InjectedIsUntouched(files, p);
      forall r | r in Reverts(next, rest) ensures r.0 != p { RecordsAre(next, rest, r); }
    }
  }

  lemma {:induction false} RevertAllAt(files: Files, reverts: seq<(string, string)>, path: string)
    requires DistinctPaths(reverts)
    ensures path !in RevertAll(files, reverts) ==> path !in files
    ensures (exists text :: (path, text) in reverts) || (path in RevertAll(files, reverts) <==> path in files)
    ensures (exists text :: (path, text) in reverts) || (path in files ==> RevertAll(files, reverts)[path] == files[path])
    ensures forall text :: (path, text) in reverts ==> path in RevertAll(files, reverts) && RevertAll(files, reverts)[path] == text
    decreases |reverts|
  {
    if reverts != [] {
      var next := files[reverts[0].0 := reverts[0].1];
      RevertAllAt(next, reverts[1..], path);
      forall text | (path, text) in reverts
        ensures path in RevertAll(files, reverts) && RevertAll(files, reverts)[path] == text
      {
        if (path, text) !in reverts[1..] {
          assert reverts[0] == (path, text);
          assert forall i :: 0 <= i < |reverts[1..]| ==> reverts[1..][i].0 != path;
        }
      }
    }
  }

  /** Injecting and then reverting gives back what reading each touched file gave. */
  lemma {:induction false} RevertRestores(files: Files, paths: seq<string>, path: string)
    ensures var after := RevertAll(InjectAll(files, paths), Reverts(files, paths));
            (path in after <==> path in files) &&
            (path in files ==> after[path] == if path in paths && Touched(files, path) then ReadText(files[path]) else files[path])
  {
    RecordedOnce(files, paths);
    InjectAllAt(files, paths, path);
    RevertAllAt(InjectAll(files, paths), Reverts(files, paths), path);
    if path in paths && Touched(files, path) {
      RecordsAre(files, paths, (path, ReadText(files[path])));
    } else {
      forall text ensures (path, text) !in Reverts(files, paths) { RecordsAre(files, paths, (path, text)); }
    }
  }

  /** So every file comes back exactly if and only if no touched file has a "\r". */
  lemma {:induction false} ExactRestore(files: Files, paths: seq<string>)
    ensures RevertAll(InjectAll(files, paths), Reverts(files, paths)) == files <==>
            forall p :: p in paths && Touched(files, p) ==> !Has(files[p], '\r')
  {
    var after := RevertAll(InjectAll(files, paths), Reverts(files, paths));
    forall p ensures RestoredAt(files, after, p) <==> !(p in paths && Touched(files, p)) || !Has(files[p], '\r') {
      RestoredUnlessReturn(files, paths, p);
    }
    SameEverywhere(files, after);
  }

  lemma {:induction false} SameEverywhere(files: Files, after: Files)
    ensures after == files <==> forall p :: RestoredAt(files, after, p)
  {
    if forall p :: RestoredAt(files, after, p) {
      forall p ensures p in after <==> p in files { assert RestoredAt(files, after, p); }
      forall p | p in files ensures after[p] == files[p] { assert RestoredAt(files, after, p); }
      assert after == files;
    }
  }

  ghost predicate RestoredAt(files: Files, after: Files, p: string) {
    (p in after <==> p in files) && (p in files && p in after ==> after[p] == files[p])
  }

  lemma {:induction false} RestoredUnlessReturn(files: Files, paths: seq<string>, p: string)
    ensures RestoredAt(files, RevertAll(InjectAll(files, paths), Reverts(files, paths)), p) <==>
            !(p in paths && Touched(files, p)) || !Has(files[p], '\r')
  {
    RevertRestores(files, paths, p);
    if p in files {
      ReadTextKeeps(files[p]);
    }
  }

  /** An injection that an error ends reports nothing to revert, yet the files before the
      failing one keep their edits. */
  lemma {:induction false} AbortKeepsEdits(files: Files, paths: seq<string>, k: nat, after: Files, path: string)
    requires StoppedAt(files, paths, k, after)
    requires path in paths[..k] && path != paths[k] && Touched(files, path)
    ensures path in after && after[path] == Inject(ReadText(files[path])) != files[path]
  {
    InjectAllAt(files, paths[..k], path);
    InjectedIsUntouched(files, path);
  }

  /** All files but the one at `path` are as they were. */
  ghost predicate SameBut(files: Files, after: Files, path: string) {
    forall p :: p != path ==> (p in after <==> p in files) && (p in files ==> after[p] == files[p])
  }

  /** So an aborted injection changes no file but the one it failed at if and only if no
      other path before that one in the list is touched. */
  lemma {:induction false} AbortIsHarmless(files: Files, paths: seq<string>, k: nat, after: Files)
    requires StoppedAt(files, paths, k, after)
    ensures SameBut(files, after, paths[k]) <==> forall p :: p in paths[..k] && p != paths[k] ==> !Touched(files, p)
  {
    if p :| p in paths[..k] && p != paths[k] && Touched(files, p) {
      AbortKeepsEdits(files, paths, k, after, p);
    } else {
      forall p | p != paths[k] ensures (p in after <==> p in files) && (p in files ==> after[p] == files[p]) {
        InjectAllAt(files, paths[..k], p);
      }
    }
  }

  /** A carriage return does not come back. */
  lemma {:induction false} CarriageReturnIsLost(path: string)
    ensures var files := map[path := "\r"];
            RevertAll(InjectAll(files, [path]), Reverts(files, [path])) != files
  {
    var files := map[path := "\r"];
    assert ReadText("\r") == "\n" && !Contains("\n", MARK);
    assert Touched(files, path) && "\r"[0] == '\r';
    assert path in [path];
    ExactRestore(files, [path]);
  }
}
