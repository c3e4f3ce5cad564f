/** The scores of a patch that does just what was asked: one correct comment directly above
    each dependency and nothing else. */
module DepScores {
  import opened Sequences
  import opened UnifiedDiff
  import opened PatchParser
  import opened LineOffset
  import opened DepSearch
  import opened DepMatching

  // ----- From comments to the tally -----

  ghost predicate Unmatched(entries: seq<Entry>, f: ParsedFile, added: seq<AddedLine>, name: string) {
    forall a :: a in added ==>
      var m := FirstMatch(entries, f, a.num);
      m.Some? ==> m.value.name != name
  }

  lemma {:induction false} NotFoundInFile(entries: seq<Entry>, target: string, f: ParsedFile, added: seq<AddedLine>, t: Tally,
                                          name: string)
    requires name !in t.found && Unmatched(entries, f, added, name)
    ensures name !in CountFile(entries, target, f, added, t).found
    decreases |added|
  {
    if added != [] {
      assert added[0] in added;
      NotFoundInFile(entries, target, f, added[1..], Count(entries, target, f, added[0], t), name);
    }
  }

  lemma {:induction false} NotFoundInAll(entries: seq<Entry>, target: string, files: seq<ParsedFile>, t: Tally, name: string)
    requires name !in t.found
    requires forall f :: f in files ==> Unmatched(entries, f, f.addedLines, name)
    ensures name !in CountAll(entries, target, files, t).found
    decreases |files|
  {
    if files != [] {
      NotFoundInFile(entries, target, files[0], files[0].addedLines, t, name);
      NotFoundInAll(entries, target, files[1..], CountFile(entries, target, files[0], files[0].addedLines, t), name);
    }
  }

  lemma {:induction false} AllAccepted(added: seq<AddedLine>, target: string)
    requires forall a :: a in added ==> CheckCommentContent(a.content, target)
    ensures AcceptedIn(added, target) == |added|
  {
    if added != [] {
      assert added[0] in added;
      AllAccepted(added[1..], target);
    }
  }

  lemma {:induction false} ExpectedCons(fds: seq<FileDiff>)
    requires fds != []
    ensures ExpectedFiles(fds)[0] == Expected(fds[0]) && ExpectedFiles(fds)[1..] == ExpectedFiles(fds[1..])
  {
    MapCons(Expected, fds[0], fds[1..]);
    assert fds == [fds[0]] + fds[1..];
  }

  lemma {:induction false} CommentsAccepted(fds: seq<FileDiff>, target: string)
    requires AcceptedContent(fds, target)
    ensures Accepted(ExpectedFiles(fds), target) == TotalComments(fds)
    decreases |fds|
  {
    if fds != [] {
      assert fds[0] in fds;
      ExpectedCons(fds);
      AllAccepted(AddsOf(ScriptOf(fds[0]), 0), target);
      CommentsAccepted(fds[1..], target);
    }
  }

  lemma {:induction false} ContentIsComments(fds: seq<FileDiff>, target: string)
    requires AcceptedContent(fds, target)
    ensures forall c :: c in AllContent(ExpectedFiles(fds)) ==> IsComment(c)
    decreases |fds|
  {
    if fds != [] {
      var files := ExpectedFiles(fds);
      ExpectedCons(fds);
      ContentIsComments(fds[1..], target);
      forall i | 0 <= i < |files[0].addedLines| ensures IsComment(files[0].addedLines[i].content) {
        assert fds[0] in fds && files[0].addedLines[i] in AddsOf(ScriptOf(fds[0]), 0);
        AcceptedIsComment(files[0].addedLines[i].content, target);
      }
    }
  }

  lemma {:induction false} NamesAreDistinct(deps: seq<Dep>)
    requires SpacedDeps(deps)
    ensures |Names(EntriesOf(deps))| == |deps|
  {
    if deps != [] {
      var entries := EntriesOf(deps);
      assert entries[1..] == EntriesOf(deps[1..]);
      NamesAreDistinct(deps[1..]);
      NamesOf(entries[1..], deps[0].name);
      forall e | e in entries[1..] ensures e.name != deps[0].name {
        var q :| 1 <= q < |deps| && e == EntryOf(deps[q]);
      }
    }
  }

  // ----- The verdict -----

  lemma {:induction false} ParsedAsExpected(fds: seq<FileDiff>)
    requires forall fd :: fd in fds ==> WellFormed(fd) && CleanFile(fd)
    ensures Parse(PrintPatch(fds)) == ExpectedFiles(fds)
  {
    ParsePrintRoundTrip(fds);
  }

  /** The tally behind the evaluation of an annotated patch. */
  ghost function TallyOf(fds: seq<FileDiff>, deps: seq<Dep>, target: string): Tally {
    CountAll(EntriesOf(deps), target, ExpectedFiles(fds), NO_TALLY)
  }

  lemma {:induction false} EvaluateAnnotated(fds: seq<FileDiff>, deps: seq<Dep>, target: string)
    requires Annotated(fds, deps, target)
    ensures Evaluate(deps, target, PrintPatch(fds)) == Score(|deps|, TallyOf(fds, deps, target), true)
    ensures var t := TallyOf(fds, deps, target);
            |t.found| + t.falsePositives + t.duplicates == |deps| && t.found <= Names(EntriesOf(deps))
  {
    ParsedAsExpected(fds);
    assert deps[..0] == [] && deps[0..] == deps;
    PutAllDistinct(deps, 0);
    assert EntriesOf(deps[..0]) == [];
    CommentsAccepted(fds, target);
    CommentsAreDeps(fds, deps, target);
    ContentIsComments(fds, target);
    CountAllConserves(EntriesOf(deps), target, ExpectedFiles(fds), NO_TALLY);
    var t := TallyOf(fds, deps, target);
    forall n | n in t.found ensures n in Names(EntriesOf(deps)) { NamesOf(EntriesOf(deps), n); }
  }

  lemma {:induction false} BigHunkMissesOne(fds: seq<FileDiff>, deps: seq<Dep>, target: string, fd: FileDiff, h: Hunk)
    returns (d: Dep)
    requires Annotated(fds, deps, target) && fd in fds && h in fd.hunks && Additions(h.body) > 5
    ensures d in deps && d.name !in TallyOf(fds, deps, target).found
  {
    var k := CommentWithFiveBelow(fd.hunks, fd.tail, h);
    assert IsCommentAt(fd, k);
    assert HasDep(fd, k, deps);
    d :| d in deps && CommentAbove(fd, k, d);
    forall p | 0 <= p < |fds| ensures Unmatched(EntriesOf(deps), Expected(fds[p]), Expected(fds[p]).addedLines, d.name) {
      MissedInFile(fds, deps, target, fd, k, d, fds[p]);
    }
    NotFoundInAll(EntriesOf(deps), target, ExpectedFiles(fds), NO_TALLY, d.name);
  }

  lemma {:induction false} MissedInFile(fds: seq<FileDiff>, deps: seq<Dep>, target: string,
                                        fd: FileDiff, k: nat, d: Dep, fd': FileDiff)
    requires Annotated(fds, deps, target) && fd in fds && d in deps && fd' in fds
    requires CommentAbove(fd, k, d) && CommentsBelow(fd.hunks, k) == 5
    ensures Unmatched(EntriesOf(deps), Expected(fd'), AddsOf(ScriptOf(fd'), 0), d.name)
  {
    forall a | a in AddsOf(ScriptOf(fd'), 0)
      ensures var m := FirstMatch(EntriesOf(deps), Expected(fd'), a.num); m.Some? ==> m.value.name != d.name
    {
      FiveBelowIsMissed(fds, deps, target, fd, k, d, fd', a);
    }
  }

  // ----- Exact scores -----

  ghost predicate IsMissed(hunks: seq<Hunk>, tail: seq<string>, i: nat)
    requires i < |Script(hunks, tail)|
  {
    Script(hunks, tail)[i].Add? && CommentsBelow(hunks, i) >= 5
  }

  /** Comments with at least five others below them in their hunk, from index i on. */
  ghost function MissedFrom(hunks: seq<Hunk>, tail: seq<string>, i: nat): nat
    requires i <= |Script(hunks, tail)|
    decreases |Script(hunks, tail)| - i
  {
    if i == |Script(hunks, tail)| then 0
    else (if IsMissed(hunks, tail, i) then 1 else 0) + MissedFrom(hunks, tail, i + 1)
  }

  /** All but the last five of a hunk. */
  function Surplus(comments: nat): nat { if comments <= 5 then 0 else comments - 5 }

  function SurplusOf(hunks: seq<Hunk>): nat {
    if hunks == [] then 0 else Surplus(Additions(hunks[0].body)) + SurplusOf(hunks[1..])
  }

  function TotalSurplus(fds: seq<FileDiff>): nat {
    if fds == [] then 0 else SurplusOf(fds[0].hunks) + TotalSurplus(fds[1..])
  }

  lemma {:induction false} IsMissedBeyond(h: Hunk, more: seq<Hunk>, tail: seq<string>, k: nat)
    requires k < |Script(more, tail)|
    ensures var i := |h.skip| + |h.body| + k;
            i < |Script([h] + more, tail)| && (IsMissed([h] + more, tail, i) <==> IsMissed(more, tail, k))
  {
    BeyondHunk(h, more, tail, |h.skip| + |h.body| + k);
    LaterBeyond(h, more, k + 1);
  }

  lemma {:induction false} LaterBeyond(h: Hunk, more: seq<Hunk>, k: nat)
    ensures LaterInHunk([h] + more, |h.skip| + |h.body| + k) == LaterInHunk(more, k)
  {
    assert ([h] + more)[1..] == more;
  }

  lemma {:induction false} MissedBeyond(h: Hunk, more: seq<Hunk>, tail: seq<string>, k: nat)
    requires k <= |Script(more, tail)|
    ensures |h.skip| + |h.body| + k <= |Script([h] + more, tail)|
    ensures MissedFrom([h] + more, tail, |h.skip| + |h.body| + k) == MissedFrom(more, tail, k)
    decreases |Script(more, tail)| - k
  {
    ScriptLength(h, more, tail);
    if k < |Script(more, tail)| {
      MissedBeyond(h, more, tail, k + 1);
      IsMissedBeyond(h, more, tail, k);
    }
  }

  lemma {:induction false} IsMissedInBody(h: Hunk, more: seq<Hunk>, tail: seq<string>, j: nat)
    requires OnlyComments(h.body) && j < |h.body|
    ensures |h.skip| + j < |Script([h] + more, tail)|
    ensures IsMissed([h] + more, tail, |h.skip| + j) <==> h.body[j].Add? && Additions(h.body[j + 1..]) >= 5
  {
    InFirstHunk(h, more, tail, |h.skip| + j);
    if h.body[j].Add? {
      assert h.body[j + 1..] == [h.body[j + 1]] + h.body[j + 2..];
      assert LaterInHunk([h] + more, |h.skip| + j + 1) == h.body[j + 2..];
    }
  }

  lemma {:induction false} SurplusCons(body: seq<Edit>, j: nat)
    requires j < |body|
    ensures Surplus(Additions(body[j..])) ==
            Surplus(Additions(body[j + 1..])) + if body[j].Add? && Additions(body[j + 1..]) >= 5 then 1 else 0
  {
    assert body[j..][1..] == body[j + 1..];
  }

  lemma {:induction false} MissedInBody(h: Hunk, more: seq<Hunk>, tail: seq<string>, j: nat)
    requires OnlyComments(h.body) && j <= |h.body|
    ensures |h.skip| + j <= |Script([h] + more, tail)|
    ensures MissedFrom([h] + more, tail, |h.skip| + j) == Surplus(Additions(h.body[j..])) + MissedFrom(more, tail, 0)
    decreases |h.body| - j
  {
    ScriptLength(h, more, tail);
    if j == |h.body| {
      MissedBeyond(h, more, tail, 0);
    } else {
      MissedInBody(h, more, tail, j + 1);
      IsMissedInBody(h, more, tail, j);
      SurplusCons(h.body, j);
    }
  }

  lemma {:induction false} MissedInSkip(h: Hunk, more: seq<Hunk>, tail: seq<string>, j: nat)
    requires OnlyComments(h.body) && j <= |h.skip|
    ensures j <= |Script([h] + more, tail)|
    ensures MissedFrom([h] + more, tail, j) == Surplus(Additions(h.body)) + MissedFrom(more, tail, 0)
    decreases |h.skip| - j
  {
    ScriptLength(h, more, tail);
    if j == |h.skip| {
      MissedInBody(h, more, tail, 0);
      assert h.body[0..] == h.body;
    } else {
      MissedInSkip(h, more, tail, j + 1);
      assert ([h] + more)[1..] == more;
      ScriptParts([h] + more, tail, j);
    }
  }

  lemma {:induction false} NothingMissedIn(tail: seq<string>, j: nat)
    requires j <= |tail|
    ensures |Script([], tail)| == |tail| && MissedFrom([], tail, j) == 0
    decreases |tail| - j
  {
    if j < |tail| { NothingMissedIn(tail, j + 1); }
  }

  /** A hunk misses all its comments but the last five. */
  lemma {:induction false} MissedIsSurplus(hunks: seq<Hunk>, tail: seq<string>)
    requires CommentHunks(hunks)
    ensures MissedFrom(hunks, tail, 0) == SurplusOf(hunks)
  {
    if hunks == [] {
      NothingMissedIn(tail, 0);
    } else {
      assert hunks == [hunks[0]] + hunks[1..];
      MissedInSkip(hunks[0], hunks[1..], tail, 0);
      MissedIsSurplus(hunks[1..], tail);
    }
  }

  /** What has been found belongs to other files or to comments before index i. */
  ghost predicate FoundBefore(deps: seq<Dep>, fd: FileDiff, i: nat, found: set<string>) {
    forall d :: d in deps && d.name in found ==> d.file != fd.newName || HasCommentBefore(fd, i, d)
  }

  ghost predicate HasCommentBefore(fd: FileDiff, i: nat, d: Dep) {
    exists j: nat :: j < i && CommentAbove(fd, j, d)
  }

  lemma {:induction false} NotFoundYet(deps: seq<Dep>, fd: FileDiff, i: nat, d: Dep, found: set<string>)
    requires CommentHunks(fd.hunks) && d in deps && CommentAbove(fd, i, d) && FoundBefore(deps, fd, i, found)
    ensures d.name !in found
  {
    if j: nat :| j < i && CommentAbove(fd, j, d) {
      CommentsOnDistinctLines(fd, j, i);
    }
  }

  lemma {:induction false} NowFound(deps: seq<Dep>, fd: FileDiff, i: nat, d: Dep, found: set<string>)
    requires SpacedDeps(deps) && d in deps && CommentAbove(fd, i, d) && FoundBefore(deps, fd, i, found)
    ensures FoundBefore(deps, fd, i + 1, found + {d.name})
  {
    forall x | x in deps && x.name in found + {d.name} && x.file == fd.newName ensures HasCommentBefore(fd, i + 1, x) {
      if x.name in found {
        var j: nat :| j < i && CommentAbove(fd, j, x);
      } else {
        if x != d { SpacedApart(deps, 10, d, x); }
        assert CommentAbove(fd, i, x);
      }
    }
  }

  ghost predicate SameOrOwn(deps: seq<Dep>, file: string, found: set<string>, found': set<string>) {
    forall d :: d in deps && d.name in found' ==> d.name in found || d.file == file
  }

  lemma {:induction false} AddsFrom(script: seq<Edit>, i: nat)
    requires i < |script|
    ensures AddsOf(script[i..], NewCount(script[..i])) ==
            (if script[i].Add? then [AddedLine(NumAt(script, i), script[i].text)] else []) + AddsOf(script[i + 1..], NewCount(script[..i + 1]))
  {
    var e := script[i];
    assert script[i..][0] == e && script[i..][1..] == script[i + 1..];
    assert script[..i + 1] == script[..i] + [e];
    TextAppend(script[..i], [e]);
    assert [e][1..] == [];
  }

  lemma {:induction false} NothingAdded(script: seq<Edit>, i: nat)
    requires i < |script| && !script[i].Add?
    ensures AddsOf(script[i..], NewCount(script[..i])) == AddsOf(script[i + 1..], NewCount(script[..i + 1]))
  {
    AddsFrom(script, i);
    assert [] + AddsOf(script[i + 1..], NewCount(script[..i + 1])) == AddsOf(script[i + 1..], NewCount(script[..i + 1]));
  }

  /** The comment at i is counted once, for its own dependency or not at all. */
  lemma {:induction false} CommentTally(fds: seq<FileDiff>, deps: seq<Dep>, target: string, gap: int, fd: FileDiff, i: nat, t: Tally)
    requires Annotated(fds, deps, target) && gap >= 10 && SpacedBy(deps, gap) && HunksUpTo(fds, gap - 4)
    requires fd in fds && IsCommentAt(fd, i) && FoundBefore(deps, fd, i, t.found)
    ensures var t' := Count(EntriesOf(deps), target, Expected(fd), AddedLine(NumAt(ScriptOf(fd), i), ScriptOf(fd)[i].text), t);
            t'.duplicates == t.duplicates &&
            t'.falsePositives == t.falsePositives + (if IsMissed(fd.hunks, fd.tail, i) then 1 else 0) &&
            FoundBefore(deps, fd, i + 1, t'.found) && SameOrOwn(deps, fd.newName, t.found, t'.found)
  {
    assert HasDep(fd, i, deps);
    var d :| d in deps && CommentAbove(fd, i, d);
    FirstMatchIsOwn(fds, deps, target, gap, fd, i, d);
    NotFoundYet(deps, fd, i, d, t.found);
    NowFound(deps, fd, i, d, t.found);
    FoundStays(deps, fd, i, t.found);
    CommentAccepted(fds, target, fd, i);
    OneMoreFound(deps, d, t.found);
  }

  lemma {:induction false} CommentAccepted(fds: seq<FileDiff>, target: string, fd: FileDiff, i: nat)
    requires AcceptedContent(fds, target) && fd in fds && IsCommentAt(fd, i)
    ensures CheckCommentContent(ScriptOf(fd)[i].text, target)
  {
    AddsAreNewLines(ScriptOf(fd));
    assert AddedLine(NumAt(ScriptOf(fd), i), ScriptOf(fd)[i].text) in AddsOf(ScriptOf(fd), 0);
  }

  lemma {:induction false} OneMoreFound(deps: seq<Dep>, d: Dep, found: set<string>)
    requires SpacedDeps(deps) && d in deps
    ensures SameOrOwn(deps, d.file, found, found + {d.name})
  {
    forall x | x in deps && x.name in found + {d.name} ensures x.name in found || x.file == d.file {
      if x != d { SpacedApart(deps, 10, d, x); }
    }
  }

  lemma {:induction false} FoundStays(deps: seq<Dep>, fd: FileDiff, i: nat, found: set<string>)
    requires FoundBefore(deps, fd, i, found)
    ensures FoundBefore(deps, fd, i + 1, found)
  {
    forall d | d in deps && d.name in found && d.file == fd.newName ensures HasCommentBefore(fd, i + 1, d) {
      var j: nat :| j < i && CommentAbove(fd, j, d);
    }
  }

  lemma {:induction false} CountCons(entries: seq<Entry>, target: string, f: ParsedFile, a: AddedLine, rest: seq<AddedLine>, t: Tally)
    ensures CountFile(entries, target, f, [a] + rest, t) == CountFile(entries, target, f, rest, Count(entries, target, f, a, t))
  {
    assert ([a] + rest)[1..] == rest;
  }

  lemma {:induction false} FileTally(fds: seq<FileDiff>, deps: seq<Dep>, target: string, gap: int, fd: FileDiff, i: nat, t: Tally)
    requires Annotated(fds, deps, target) && gap >= 10 && SpacedBy(deps, gap) && HunksUpTo(fds, gap - 4)
    requires fd in fds && i <= |ScriptOf(fd)| && FoundBefore(deps, fd, i, t.found)
    ensures var r := CountFile(EntriesOf(deps), target, Expected(fd), AddsOf(ScriptOf(fd)[i..], NewCount(ScriptOf(fd)[..i])), t);
            r.duplicates == t.duplicates && r.falsePositives == t.falsePositives + MissedFrom(fd.hunks, fd.tail, i) &&
            SameOrOwn(deps, fd.newName, t.found, r.found)
    decreases |ScriptOf(fd)| - i
  {
    var script := ScriptOf(fd);
    if i < |script| {
      if script[i].Add? {
        AddsFrom(script, i);
        var a := AddedLine(NumAt(script, i), script[i].text);
        CommentTally(fds, deps, target, gap, fd, i, t);
        FileTally(fds, deps, target, gap, fd, i + 1, Count(EntriesOf(deps), target, Expected(fd), a, t));
        CountCons(EntriesOf(deps), target, Expected(fd), a, AddsOf(script[i + 1..], NewCount(script[..i + 1])), t);
      } else {
        FoundStays(deps, fd, i, t.found);
        NothingAdded(script, i);
        FileTally(fds, deps, target, gap, fd, i + 1, t);
      }
    }
  }

  ghost predicate FoundInFirst(deps: seq<Dep>, fds: seq<FileDiff>, p: nat, found: set<string>) {
    forall d :: d in deps && d.name in found ==> exists q :: 0 <= q < p && q < |fds| && d.file == fds[q].newName
  }

  lemma {:induction false} WholeFileTally(fds: seq<FileDiff>, deps: seq<Dep>, target: string, gap: int, p: nat, t: Tally)
    requires Annotated(fds, deps, target) && gap >= 10 && SpacedBy(deps, gap) && HunksUpTo(fds, gap - 4)
    requires p < |fds| && FoundInFirst(deps, fds, p, t.found)
    ensures var r := CountFile(EntriesOf(deps), target, Expected(fds[p]), Expected(fds[p]).addedLines, t);
            r.duplicates == t.duplicates && r.falsePositives == t.falsePositives + SurplusOf(fds[p].hunks) &&
            FoundInFirst(deps, fds, p + 1, r.found)
  {
    var fd := fds[p];
    assert fd in fds && FoundBefore(deps, fd, 0, t.found);
    FileTally(fds, deps, target, gap, fd, 0, t);
    assert ScriptOf(fd)[0..] == ScriptOf(fd) && NewCount(ScriptOf(fd)[..0]) == 0;
    MissedIsSurplus(fd.hunks, fd.tail);
  }

  lemma {:induction false} PatchTally(fds: seq<FileDiff>, deps: seq<Dep>, target: string, gap: int, p: nat, t: Tally)
    requires Annotated(fds, deps, target) && gap >= 10 && SpacedBy(deps, gap) && HunksUpTo(fds, gap - 4)
    requires p <= |fds| && FoundInFirst(deps, fds, p, t.found)
    ensures var r := CountAll(EntriesOf(deps), target, ExpectedFiles(fds[p..]), t);
            r.duplicates == t.duplicates && r.falsePositives == t.falsePositives + TotalSurplus(fds[p..])
    decreases |fds| - p
  {
    if p < |fds| {
      ExpectedCons(fds[p..]);
      assert fds[p..][1..] == fds[p + 1..];
      WholeFileTally(fds, deps, target, gap, p, t);
      PatchTally(fds, deps, target, gap, p + 1, CountFile(EntriesOf(deps), target, Expected(fds[p]), Expected(fds[p]).addedLines, t));
    }
  }

  /** The scores of an annotated patch: every hunk loses all its comments but the last five,
      if dependencies are so far apart that the comments of one hunk fit in between. */
  lemma {:induction false} ExactScores(fds: seq<FileDiff>, deps: seq<Dep>, target: string, gap: int)
    requires Annotated(fds, deps, target) && gap >= 10 && SpacedBy(deps, gap) && HunksUpTo(fds, gap - 4)
    ensures var r := Evaluate(deps, target, PrintPatch(fds));
            r.truePositives == |deps| - TotalSurplus(fds) && r.falsePositives == TotalSurplus(fds) && r.duplicates == 0 &&
            (r.fullSuccess <==> TotalSurplus(fds) == 0)
  {
    EvaluateAnnotated(fds, deps, target);
    PatchTally(fds, deps, target, gap, 0, NO_TALLY);
    assert fds[0..] == fds;
  }

  lemma {:induction false} NoSurplusIn(hunks: seq<Hunk>)
    requires forall h :: h in hunks ==> Additions(h.body) <= 5
    ensures SurplusOf(hunks) == 0
  {
    if hunks != [] {
      assert hunks[0] in hunks;
      NoSurplusIn(hunks[1..]);
    }
  }

  lemma {:induction false} NoSurplus(fds: seq<FileDiff>)
    requires SmallHunks(fds)
    ensures TotalSurplus(fds) == 0
  {
    if fds != [] {
      assert fds[0] in fds;
      NoSurplusIn(fds[0].hunks);
      NoSurplus(fds[1..]);
    }
  }

  /** A patch that does exactly what was asked is a full success, with every dependency
      found once and nothing else, if and only if no hunk of it carries more than five
      comments. */
  lemma {:induction false} FullSuccess(fds: seq<FileDiff>, deps: seq<Dep>, target: string)
    requires Annotated(fds, deps, target)
    ensures var r := Evaluate(deps, target, PrintPatch(fds));
            (SmallHunks(fds) ==>
              r.truePositives == |deps| && r.falsePositives == 0 && r.duplicates == 0 && r.fullSuccess) &&
            (r.fullSuccess ==> SmallHunks(fds))
  {
    if SmallHunks(fds) {
      ExactScores(fds, deps, target, 10);
      NoSurplus(fds);
    } else {
      EvaluateAnnotated(fds, deps, target);
      NamesAreDistinct(deps);
      MissesSome(fds, deps, target);
    }
  }

  lemma {:induction false} MissesSome(fds: seq<FileDiff>, deps: seq<Dep>, target: string)
    requires Annotated(fds, deps, target) && !SmallHunks(fds)
    ensures |TallyOf(fds, deps, target).found| < |Names(EntriesOf(deps))|
  {
    var fd, h :| fd in fds && h in fd.hunks && Additions(h.body) > 5;
    var d := BigHunkMissesOne(fds, deps, target, fd, h);
    EvaluateAnnotated(fds, deps, target);
    EntriesMember(deps, EntryOf(d));
    NamesOf(EntriesOf(deps), d.name);
    ProperSubset(TallyOf(fds, deps, target).found, Names(EntriesOf(deps)), d.name);
  }

  lemma {:induction false} ProperSubset<T>(a: set<T>, b: set<T>, x: T)
    requires a <= b && x in b && x !in a
    ensures |a| < |b|
  {
    SubsetSize(a + {x}, b);
  }
}
