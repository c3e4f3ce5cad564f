/** What the two text parsers return for a printed patch. */
module PatchText {
  import opened Options
  import opened Sequences
  import opened Text
  import opened UnifiedDiff
  import opened PatchParser
  import opened ParserAgreement

  function Content(text: string): seq<string> { if Strip(text) != "" then [Strip(text)] else [] }

  /** The non-blank additions of a body, stripped, without those that look like a header. */
  function AddedTexts(body: seq<Edit>): seq<string> {
    if body == [] then []
    else (if body[0].Add? && !("++" <= body[0].text) then Content(body[0].text) else []) + AddedTexts(body[1..])
  }

  function RemovedTexts(body: seq<Edit>): seq<string> {
    if body == [] then []
    else (if body[0].Del? && !("--" <= body[0].text) then Content(body[0].text) else []) + RemovedTexts(body[1..])
  }

  function AllEdits(hunks: seq<Hunk>): seq<Edit> {
    if hunks == [] then [] else hunks[0].body + AllEdits(hunks[1..])
  }

  predicate SaysNew(meta: seq<string>) { exists i :: 0 <= i < |meta| && "new file mode" <= meta[i] }

  function ChangeOf(fd: FileDiff): FileChange {
    FileChange(fd.newName, AddedTexts(AllEdits(fd.hunks)), RemovedTexts(AllEdits(fd.hunks)), SaysNew(fd.meta))
  }

  /** Extended headers that no parser takes for an edit: none begins with `+` or `-`,
      except the two file lines. */
  ghost predicate QuietMeta(meta: seq<string>) {
    forall l :: l in meta ==> !("diff --git" <= l) && ("+" <= l ==> "+++" <= l) && ("-" <= l ==> "---" <= l)
  }

  // ----- One line -----

  lemma {:induction false} OtherStart(line: string, c: char)
    requires line != "" && line[0] == c
    ensures c != 'd' ==> !("diff --git" <= line)
    ensures c != '+' ==> !("+" <= line)
    ensures c != '-' ==> !("-" <= line)
    ensures c != 'n' ==> !("new file mode" <= line)
    ensures c == '+' ==> "+" <= line
    ensures c == '-' ==> "-" <= line
  {
  }

  lemma {:induction false} ChangeAdd(st: ChangeState, text: string)
    requires st.file.Some?
    ensures ChangeStep(st, PrintEdit(Add(text))) ==
            st.(added := st.added + if "++" <= text then [] else Content(text))
  {
    var line := "+" + text;
    assert line[1..] == text;
    OtherStart(line, '+');
    AfterSign(line, '+');
    assert "+++" == ['+', '+', '+'] && "++" == ['+', '+'];
  }

  lemma {:induction false} ChangeDel(st: ChangeState, text: string)
    requires st.file.Some?
    ensures ChangeStep(st, PrintEdit(Del(text))) ==
            st.(removed := st.removed + if "--" <= text then [] else Content(text))
  {
    var line := "-" + text;
    assert line[1..] == text;
    OtherStart(line, '-');
    AfterSign(line, '-');
    assert "---" == ['-', '-', '-'] && "--" == ['-', '-'];
  }

  lemma {:induction false} ChangeNothing(st: ChangeState, line: string)
    requires line != "" && line[0] !in "d+-n"
    ensures ChangeStep(st, line) == st
  {
    OtherStart(line, line[0]);
  }

  lemma {:induction false} ChangeEdit(st: ChangeState, e: Edit)
    requires st.file.Some?
    ensures ChangeStep(st, PrintEdit(e)) ==
            st.(added := st.added + AddedTexts([e]), removed := st.removed + RemovedTexts([e]))
  {
    assert [e][1..] == [];
    match e {
      case Add(text) => ChangeAdd(st, text);
      case Del(text) => ChangeDel(st, text);
      case Keep(text) => ChangeNothing(st, " " + text);
      case NoEol => ChangeNothing(st, PrintEdit(e));
    }
  }

  // ----- Bodies, hunks, headers -----

  lemma {:induction false} ChangeRunSum(st: ChangeState, a: seq<string>, b: seq<string>)
    ensures ChangeRun(st, a + b) == ChangeRun(ChangeRun(st, a), b)
    decreases |a|
  {
    if a == [] {
      assert a + b == b;
    } else {
      assert (a + b)[1..] == a[1..] + b;
      ChangeRunSum(ChangeStep(st, a[0]), a[1..], b);
    }
  }

  lemma {:induction false} ChangeRunOne(st: ChangeState, line: string)
    ensures ChangeRun(st, [line]) == ChangeStep(st, line)
  {
    assert [line][1..] == [];
  }

  function Collected(st: ChangeState, edits: seq<Edit>): ChangeState {
    st.(added := st.added + AddedTexts(edits), removed := st.removed + RemovedTexts(edits))
  }

  lemma {:induction false} TextsSum(a: seq<Edit>, b: seq<Edit>)
    ensures AddedTexts(a + b) == AddedTexts(a) + AddedTexts(b)
    ensures RemovedTexts(a + b) == RemovedTexts(a) + RemovedTexts(b)
  {
    if a == [] {
      assert a + b == b;
    } else {
      var e := a[0];
      assert (a + b)[1..] == a[1..] + b;
      TextsSum(a[1..], b);
      Assoc(if e.Add? && !("++" <= e.text) then Content(e.text) else [], AddedTexts(a[1..]), AddedTexts(b));
      Assoc(if e.Del? && !("--" <= e.text) then Content(e.text) else [], RemovedTexts(a[1..]), RemovedTexts(b));
    }
  }

  lemma {:induction false} CollectedSum(st: ChangeState, a: seq<Edit>, b: seq<Edit>)
    ensures Collected(Collected(st, a), b) == Collected(st, a + b)
  {
    TextsSum(a, b);
    Assoc(st.added, AddedTexts(a), AddedTexts(b));
    Assoc(st.removed, RemovedTexts(a), RemovedTexts(b));
  }

  lemma {:induction false} ChangeBody(st: ChangeState, body: seq<Edit>)
    requires st.file.Some?
    ensures ChangeRun(st, PrintBody(body)) == Collected(st, body)
    decreases |body|
  {
    if body != [] {
      var e, rest := body[0], body[1..];
      assert body == [e] + rest;
      ChangeRunSum(st, [PrintEdit(e)], PrintBody(rest));
      ChangeRunOne(st, PrintEdit(e));
      ChangeEdit(st, e);
      ChangeBody(Collected(st, [e]), rest);
      CollectedSum(st, [e], rest);
    }
  }

  lemma {:induction false} ChangeHunks(st: ChangeState, hunks: seq<Hunk>, headers: seq<Header>)
    requires st.file.Some? && |hunks| == |headers|
    ensures ChangeRun(st, PrintHunks(hunks, headers)) == Collected(st, AllEdits(hunks))
    decreases |hunks|
  {
    if hunks != [] {
      var head, body := PrintHeader(headers[0], hunks[0].heading), PrintBody(hunks[0].body);
      var more := PrintHunks(hunks[1..], headers[1..]);
      assert head[0] == '@';
      ChangeRunSum(st, [head] + body, more);
      ChangeRunSum(st, [head], body);
      ChangeRunOne(st, head);
      ChangeNothing(st, head);
      ChangeBody(st, hunks[0].body);
      ChangeHunks(Collected(st, hunks[0].body), hunks[1..], headers[1..]);
      CollectedSum(st, hunks[0].body, AllEdits(hunks[1..]));
    }
  }

  lemma {:induction false} ChangeMetaLine(st: ChangeState, l: string)
    requires st.file.Some? && !("diff --git" <= l) && ("+" <= l ==> "+++" <= l) && ("-" <= l ==> "---" <= l)
    ensures ChangeStep(st, l) == st.(isNew := st.isNew || "new file mode" <= l)
  {
  }

  lemma {:induction false} ChangeMeta(st: ChangeState, meta: seq<string>)
    requires st.file.Some? && QuietMeta(meta)
    ensures ChangeRun(st, meta) == st.(isNew := st.isNew || SaysNew(meta))
    decreases |meta|
  {
    if meta != [] {
      var l, rest := meta[0], meta[1..];
      assert meta == [l] + rest && l in meta;
      assert forall x :: x in rest ==> x in meta;
      ChangeMetaLine(st, l);
      ChangeMeta(ChangeStep(st, l), rest);
      SaysNewCons(l, rest);
    }
  }

  lemma {:induction false} SaysNewCons(l: string, rest: seq<string>)
    ensures SaysNew([l] + rest) <==> "new file mode" <= l || SaysNew(rest)
  {
    var meta := [l] + rest;
    assert meta[0] == l;
    if i :| 0 <= i < |rest| && "new file mode" <= rest[i] { assert meta[i + 1] == rest[i]; }
    if i :| 1 <= i < |meta| && "new file mode" <= meta[i] { assert rest[i - 1] == meta[i]; }
  }

  // ----- Files and patches -----

  ghost predicate Readable(fd: FileDiff) {
    fd.oldName != "" && fd.newName != "" && ReadableNames(fd.oldName, fd.newName) && QuietMeta(fd.meta)
  }

  lemma {:induction false} HeadStarts(st: ChangeState, oldName: string, newName: string)
    requires oldName != "" && newName != "" && ReadableNames(oldName, newName)
    ensures ChangeStep(st, PrintFileHeader(oldName, newName)) == ChangeState(FlushChange(st), Some(newName), [], [], false)
  {
    FileHeaderRoundTrip(oldName, newName);
  }

  lemma {:induction false} ChangeFileRun(st: ChangeState, fd: FileDiff)
    requires Readable(fd)
    ensures ChangeRun(st, PrintFile(fd)) ==
            Collected(ChangeState(FlushChange(st), Some(fd.newName), [], [], SaysNew(fd.meta)), AllEdits(fd.hunks))
  {
    var head := PrintFileHeader(fd.oldName, fd.newName);
    var headers := HeadersFrom(fd.hunks, 0, 0);
    HeadersLength(fd.hunks, 0, 0);
    ChangeRunSum(st, [head] + fd.meta, PrintHunks(fd.hunks, headers));
    ChangeRunSum(st, [head], fd.meta);
    ChangeRunOne(st, head);
    HeadStarts(st, fd.oldName, fd.newName);
    var s1 := ChangeState(FlushChange(st), Some(fd.newName), [], [], false);
    ChangeMeta(s1, fd.meta);
    ChangeHunks(s1.(isNew := SaysNew(fd.meta)), fd.hunks, headers);
  }

  lemma {:induction false} ChangeFile(st: ChangeState, fd: FileDiff)
    requires Readable(fd)
    ensures FlushChange(ChangeRun(st, PrintFile(fd))) == FlushChange(st) + [ChangeOf(fd)]
  {
    ChangeFileRun(st, fd);
    var edits := AllEdits(fd.hunks);
    assert [] + AddedTexts(edits) == AddedTexts(edits) && [] + RemovedTexts(edits) == RemovedTexts(edits);
    FlushFile(FlushChange(st), ChangeOf(fd));
  }

  lemma {:induction false} FlushFile(files: seq<FileChange>, f: FileChange)
    ensures FlushChange(ChangeState(files, Some(f.filename), f.added, f.removed, f.isNew)) == files + [f]
  {
  }

  function ChangesOf(fds: seq<FileDiff>): seq<FileChange> { Map(ChangeOf, fds) }

  lemma {:induction false} ChangePatch(st: ChangeState, fds: seq<FileDiff>)
    requires forall fd :: fd in fds ==> Readable(fd)
    ensures FlushChange(ChangeRun(st, PrintPatch(fds))) == FlushChange(st) + ChangesOf(fds)
    decreases |fds|
  {
    if fds == [] {
      assert ChangesOf(fds) == [];
    } else {
      var fd, rest := fds[0], fds[1..];
      assert fds == [fd] + rest && fd in fds && forall x :: x in rest ==> x in fds;
      ChangeRunSum(st, PrintFile(fd), PrintPatch(rest));
      ChangeFile(st, fd);
      ChangePatch(ChangeRun(st, PrintFile(fd)), rest);
      MapCons(ChangeOf, fd, rest);
      Assoc(FlushChange(st), [ChangeOf(fd)], ChangesOf(rest));
    }
  }

  /** A printed patch gives exactly the stripped non-blank additions and deletions of each
      file, except those that look like file headers, and the new-file flag of its headers. */
  lemma {:induction false} ChangesOfPrinted(fds: seq<FileDiff>)
    requires forall fd :: fd in fds ==> Readable(fd)
    ensures GitChanges(PrintPatch(fds)) == ChangesOf(fds)
  {
    ChangePatch(ChangeState([], None, [], [], false), fds);
  }

  /** The same for the parser without the flag. */
  lemma {:induction false} TextsOfPrinted(fds: seq<FileDiff>)
    requires forall fd :: fd in fds ==> Readable(fd)
    ensures GitPatch(PrintPatch(fds)) == DropNew(ChangesOf(fds))
  {
    ChangesOfPrinted(fds);
    TextParsersAgree(PrintPatch(fds));
  }

  ghost predicate Adds(body: seq<Edit>, t: string) {
    exists i :: 0 <= i < |body| && body[i].Add? && !("++" <= body[i].text) && Strip(body[i].text) == t
  }

  ghost predicate Dels(body: seq<Edit>, t: string) {
    exists i :: 0 <= i < |body| && body[i].Del? && !("--" <= body[i].text) && Strip(body[i].text) == t
  }

  lemma {:induction false} AddsCons(e: Edit, rest: seq<Edit>, t: string)
    ensures Adds([e] + rest, t) <==> (e.Add? && !("++" <= e.text) && Strip(e.text) == t) || Adds(rest, t)
  {
    var body := [e] + rest;
    assert body[0] == e;
    if i :| 0 <= i < |rest| && rest[i].Add? && !("++" <= rest[i].text) && Strip(rest[i].text) == t { assert body[i + 1] == rest[i]; }
    if i :| 1 <= i < |body| && body[i].Add? && !("++" <= body[i].text) && Strip(body[i].text) == t { assert rest[i - 1] == body[i]; }
  }

  lemma {:induction false} DelsCons(e: Edit, rest: seq<Edit>, t: string)
    ensures Dels([e] + rest, t) <==> (e.Del? && !("--" <= e.text) && Strip(e.text) == t) || Dels(rest, t)
  {
    var body := [e] + rest;
    assert body[0] == e;
    if i :| 0 <= i < |rest| && rest[i].Del? && !("--" <= rest[i].text) && Strip(rest[i].text) == t { assert body[i + 1] == rest[i]; }
    if i :| 1 <= i < |body| && body[i].Del? && !("--" <= body[i].text) && Strip(body[i].text) == t { assert rest[i - 1] == body[i]; }
  }

  /** Which texts these are, regardless of their order. */
  lemma {:induction false} TextsAre(body: seq<Edit>, t: string)
    ensures t in AddedTexts(body) <==> t != "" && Adds(body, t)
    ensures t in RemovedTexts(body) <==> t != "" && Dels(body, t)
  {
    if body != [] {
      assert body == [body[0]] + body[1..];
      TextsAre(body[1..], t);
      AddsCons(body[0], body[1..], t);
      DelsCons(body[0], body[1..], t);
    }
  }
}
