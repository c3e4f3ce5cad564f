/** A patch that does just what the dep_search task asks, one correct comment directly above
    each dependency and nothing else, and which dependency each comment reaches. */
module DepMatching {
  import opened Options
  import opened UnifiedDiff
  import opened PatchParser
  import opened LineOffset
  import opened DepSearch

  /** Old line number of the next old line at index i of a script, and the new line
      number of what stands at i. */
  function LineAt(script: seq<Edit>, i: nat): nat
    requires i <= |script|
  {
    OldCount(script[..i]) + 1
  }

  function NumAt(script: seq<Edit>, i: nat): nat
    requires i <= |script|
  {
    NewCount(script[..i]) + 1
  }

  /** Comments go directly above a kept line of the same hunk; nothing is deleted. */
  ghost predicate OnlyComments(body: seq<Edit>) {
    (forall j :: 0 <= j < |body| ==> !body[j].Del?) &&
    (forall j :: 0 <= j < |body| && body[j].Add? ==> j + 1 < |body| && body[j + 1].Keep?)
  }

  ghost predicate CommentHunks(hunks: seq<Hunk>) {
    forall h :: h in hunks ==> OnlyComments(h.body) && OldCount(h.body) > 0
  }

  /** Comments below index i in the hunk of a comment at i. */
  function CommentsBelow(hunks: seq<Hunk>, i: nat): nat {
    Additions(LaterInHunk(hunks, i + 1))
  }

  // ----- Counting along a script without deletions -----

  lemma {:induction false} AdditionsAppend(a: seq<Edit>, b: seq<Edit>)
    ensures Additions(a + b) == Additions(a) + Additions(b)
    ensures Deletions(a + b) == Deletions(a) + Deletions(b)
  {
    if a == [] {
      assert a + b == b;
    } else {
      assert (a + b)[1..] == a[1..] + b;
      AdditionsAppend(a[1..], b);
    }
  }

  lemma {:induction false} NoDeletions(edits: seq<Edit>)
    requires forall j :: 0 <= j < |edits| ==> !edits[j].Del?
    ensures Deletions(edits) == 0
  {
    if edits != [] { NoDeletions(edits[1..]); }
  }

  lemma {:induction false} ScriptHasNoDeletions(hunks: seq<Hunk>, tail: seq<string>)
    requires CommentHunks(hunks)
    ensures forall j :: 0 <= j < |Script(hunks, tail)| ==> !Script(hunks, tail)[j].Del?
  {
    if hunks != [] {
      ScriptHasNoDeletions(hunks[1..], tail);
      assert OnlyComments(hunks[0].body);
    }
  }

  /** Above a comment, the new file is ahead of the old one by the comments passed. */
  lemma {:induction false} NumIsLinePlusComments(script: seq<Edit>, i: nat)
    requires i <= |script| && forall j :: 0 <= j < |script| ==> !script[j].Del?
    ensures NumAt(script, i) == LineAt(script, i) + Additions(script[..i])
  {
    CountDifference(script[..i]);
    NoDeletions(script[..i]);
  }

  /** Of two places in a script, the later one has no fewer old lines above it, and
      more comments if the earlier one is a comment. */
  lemma {:induction false} Later(script: seq<Edit>, i: nat, k: nat)
    requires i < k <= |script|
    ensures LineAt(script, i) <= LineAt(script, k)
    ensures script[i].Add? ==> Additions(script[..i]) < Additions(script[..k])
  {
    var mid := script[i..k];
    assert script[..k] == script[..i] + mid;
    TextAppend(script[..i], mid);
    AdditionsAppend(script[..i], mid);
  }

  // ----- Comments inside hunks -----

  /** A comment in a hunk body has its kept line below it, and fewer comments below it
      than the body has. */
  lemma {:induction false} CommentInBody(body: seq<Edit>, j: nat)
    requires OnlyComments(body) && j < |body| && body[j].Add?
    ensures j + 1 < |body| && body[j + 1].Keep?
    ensures Deletions(body[j + 2..]) == 0 && Additions(body[j + 2..]) < Additions(body)
  {
    var later := body[j + 2..];
    assert body == body[..j] + ([body[j], body[j + 1]] + later);
    AdditionsAppend(body[..j], [body[j], body[j + 1]] + later);
    AdditionsAppend([body[j], body[j + 1]], later);
    assert Additions([body[j], body[j + 1]]) == 1 by {
      assert [body[j], body[j + 1]][1..] == [body[j + 1]];
    }
    NoDeletions(later);
  }

  lemma {:induction false} ScriptParts(hunks: seq<Hunk>, tail: seq<string>, i: nat)
    requires hunks != [] && i < |Script(hunks, tail)|
    ensures var h, rest := hunks[0], Script(hunks[1..], tail);
            |Script(hunks, tail)| == |h.skip| + |h.body| + |rest| &&
            Script(hunks, tail)[i] ==
            if i < |h.skip| then Keep(h.skip[i])
            else if i < |h.skip| + |h.body| then h.body[i - |h.skip|]
            else rest[i - |h.skip| - |h.body|]
  {
  }

  /** A comment stands in some hunk, has its kept line below it, and fewer comments
      below it than its hunk has. */
  lemma {:induction false} CommentInHunk(hunks: seq<Hunk>, tail: seq<string>, i: nat)
    requires CommentHunks(hunks)
    requires i < |Script(hunks, tail)| && Script(hunks, tail)[i].Add?
    ensures i + 1 < |Script(hunks, tail)| && Script(hunks, tail)[i + 1].Keep?
    ensures Deletions(LaterInHunk(hunks, i + 1)) == 0
    ensures exists h :: h in hunks && CommentsBelow(hunks, i) < Additions(h.body)
    decreases |hunks|
  {
    var h := hunks[0];
    var j := i - |h.skip|;
    assert h in hunks;
    ScriptParts(hunks, tail, i);
    if j < |h.body| {
      CommentInBody(h.body, j);
      ScriptParts(hunks, tail, i + 1);
      assert LaterInHunk(hunks, i + 1) == h.body[j + 2..];
    } else {
      var k := j - |h.body|;
      CommentInHunk(hunks[1..], tail, k);
      ScriptParts(hunks, tail, i + 1);
      assert LaterInHunk(hunks, i + 1) == LaterInHunk(hunks[1..], k + 1);
      var x :| x in hunks[1..] && CommentsBelow(hunks[1..], k) < Additions(x.body);
      assert x in hunks;
    }
  }

  /** A body with more than m comments has one with exactly m below it. */
  lemma {:induction false} CommentWithBelow(body: seq<Edit>, m: nat) returns (j: nat)
    requires Additions(body) > m
    ensures j < |body| && body[j].Add? && Additions(body[j + 1..]) == m
  {
    if body[0].Add? && Additions(body[1..]) == m {
      j := 0;
    } else {
      var k := CommentWithBelow(body[1..], m);
      j := k + 1;
      assert body[j + 1..] == body[1..][k + 1..];
    }
  }

  lemma {:induction false} CommentWithFiveBelow(hunks: seq<Hunk>, tail: seq<string>, h: Hunk) returns (i: nat)
    requires CommentHunks(hunks) && h in hunks && Additions(h.body) > 5
    ensures i < |Script(hunks, tail)| && Script(hunks, tail)[i].Add? && CommentsBelow(hunks, i) == 5
    decreases |hunks|
  {
    var h0 := hunks[0];
    if h == h0 {
      var j := CommentWithBelow(h.body, 5);
      i := |h.skip| + j;
      assert OnlyComments(h.body);
      assert Script(hunks, tail)[i] == h.body[j];
      assert h.body[j + 1..] == [h.body[j + 1]] + h.body[j + 2..];
      assert LaterInHunk(hunks, i + 1) == h.body[j + 2..];
    } else {
      assert h in hunks[1..];
      var k := CommentWithFiveBelow(hunks[1..], tail, h);
      i := |h0.skip| + |h0.body| + k;
      assert Script(hunks, tail)[i] == Script(hunks[1..], tail)[k];
      assert LaterInHunk(hunks, i + 1) == LaterInHunk(hunks[1..], k + 1);
    }
  }

  // ----- Distances -----

  /** Where the evaluator expects the dependency below the comment at i. */
  function Adjusted(hunks: seq<Hunk>, tail: seq<string>, i: nat): int
    requires i <= |Script(hunks, tail)|
  {
    var line := LineAt(Script(hunks, tail), i);
    line + OffsetAt(HeadersFrom(hunks, 0, 0), line)
  }

  /** A comment and the kept line below it are one old line and two new ones. */
  lemma {:induction false} CommentAndLine(script: seq<Edit>, i: nat)
    requires i + 1 < |script| && script[i].Add? && script[i + 1].Keep?
    ensures OldCount(script[..i + 2]) == OldCount(script[..i]) + 1
    ensures NewCount(script[..i + 2]) == NewCount(script[..i]) + 2
  {
    assert script[..i + 1] == script[..i] + [script[i]];
    assert script[..i + 2] == script[..i + 1] + [Keep(script[i + 1].text)];
    LastKept(script[..i + 1], script[i + 1].text);
    TextAppend(script[..i], [script[i]]);
    assert [script[i]][1..] == [];
  }

  lemma {:induction false} AdjustedLine(hunks: seq<Hunk>, tail: seq<string>, i: nat)
    requires CommentHunks(hunks)
    requires i < |Script(hunks, tail)| && Script(hunks, tail)[i].Add?
    ensures Adjusted(hunks, tail, i) == NumAt(Script(hunks, tail), i) + 1 + CommentsBelow(hunks, i)
  {
    var script := Script(hunks, tail);
    CommentInHunk(hunks, tail, i);
    forall h | h in hunks ensures NewCount(h.body) > 0 {
      CountDifference(h.body);
      NoDeletions(h.body);
    }
    SurvivorPrediction(hunks, tail, i + 1);
    CommentAndLine(script, i);
  }

  /** The comment at i is within reach of its own dependency exactly if at most four
      comments follow it in its hunk. */
  lemma {:induction false} OwnDistance(hunks: seq<Hunk>, tail: seq<string>, i: nat)
    requires CommentHunks(hunks)
    requires i < |Script(hunks, tail)| && Script(hunks, tail)[i].Add?
    ensures Distance(NumAt(Script(hunks, tail), i), Adjusted(hunks, tail, i)) <= 5 <==> CommentsBelow(hunks, i) <= 4
  {
    AdjustedLine(hunks, tail, i);
  }

  /** It is out of reach of any other dependency far enough away for the comments that
      follow that one in its hunk. */
  lemma {:induction false} OtherDistance(hunks: seq<Hunk>, tail: seq<string>, i: nat, k: nat, gap: int)
    requires CommentHunks(hunks) && gap >= 10
    requires var script := Script(hunks, tail);
             i < |script| && k < |script| && script[i].Add? && script[k].Add? &&
             Distance(LineAt(script, i), LineAt(script, k)) > gap
    requires CommentsBelow(hunks, k) <= gap - 5
    ensures Distance(NumAt(Script(hunks, tail), i), Adjusted(hunks, tail, k)) > 5
  {
    var script := Script(hunks, tail);
    AdjustedLine(hunks, tail, k);
    ScriptHasNoDeletions(hunks, tail);
    NumIsLinePlusComments(script, i);
    NumIsLinePlusComments(script, k);
    if i < k {
      Later(script, i, k);
    } else if k < i {
      Later(script, k, i);
    }
  }

  // ----- The annotated patch -----

  function ScriptOf(fd: FileDiff): seq<Edit> { Script(fd.hunks, fd.tail) }

  ghost predicate IsCommentAt(fd: FileDiff, i: nat) {
    i < |ScriptOf(fd)| && ScriptOf(fd)[i].Add?
  }

  /** The comment at i of the file's script stands directly above the dependency. */
  ghost predicate CommentAbove(fd: FileDiff, i: nat, d: Dep) {
    IsCommentAt(fd, i) && d.file == fd.newName && ExpectedLine(d) == LineAt(ScriptOf(fd), i)
  }

  /** That is: as many old lines come before it as the dataset, which counts from 0, gives
      for the decorator of the dependency or, if it has none, for its definition. */
  lemma {:induction false} AboveItsDefinition(fd: FileDiff, i: nat, d: Dep)
    requires IsCommentAt(fd, i)
    ensures CommentAbove(fd, i, d) <==>
            d.file == fd.newName &&
            |OldText(ScriptOf(fd)[..i])| == match d.decoratorLine case Some(line) => line case None => d.lineStart
  {
  }

  function TotalComments(fds: seq<FileDiff>): nat {
    if fds == [] then 0 else |AddsOf(ScriptOf(fds[0]), 0)| + TotalComments(fds[1..])
  }

  ghost predicate DistinctFiles(fds: seq<FileDiff>) {
    forall p, q :: 0 <= p < q < |fds| ==> fds[p].newName != fds[q].newName
  }

  /** Distinct names, and more than so many lines apart within a file. */
  ghost predicate SpacedBy(deps: seq<Dep>, gap: int) {
    forall p, q :: 0 <= p < q < |deps| ==>
      deps[p].name != deps[q].name &&
      (deps[p].file == deps[q].file ==> Distance(ExpectedLine(deps[p]), ExpectedLine(deps[q])) > gap)
  }

  ghost predicate SpacedDeps(deps: seq<Dep>) { SpacedBy(deps, 10) }

  ghost predicate HasComment(fds: seq<FileDiff>, d: Dep) {
    exists fd, i :: fd in fds && CommentAbove(fd, i, d)
  }

  ghost predicate HasDep(fd: FileDiff, i: nat, deps: seq<Dep>) {
    exists d :: d in deps && CommentAbove(fd, i, d)
  }

  ghost predicate AcceptedContent(fds: seq<FileDiff>, target: string) {
    forall fd, a :: fd in fds && a in AddsOf(ScriptOf(fd), 0) ==> CheckCommentContent(a.content, target)
  }

  /** The patch inserts one accepted comment directly above each dependency and does
      nothing else. */
  ghost predicate Annotated(fds: seq<FileDiff>, deps: seq<Dep>, target: string) {
    (forall fd :: fd in fds ==> WellFormed(fd) && CleanFile(fd) && CommentHunks(fd.hunks)) &&
    DistinctFiles(fds) && SpacedDeps(deps) &&
    AcceptedContent(fds, target) &&
    (forall d :: d in deps ==> HasComment(fds, d)) &&
    (forall fd, i :: fd in fds && IsCommentAt(fd, i) ==> HasDep(fd, i, deps))
  }

  ghost predicate HunksUpTo(fds: seq<FileDiff>, comments: int) {
    forall fd, h :: fd in fds && h in fd.hunks ==> Additions(h.body) <= comments
  }

  ghost predicate SmallHunks(fds: seq<FileDiff>) { HunksUpTo(fds, 5) }

  // ----- The dependency dict -----

  function EntriesOf(deps: seq<Dep>): seq<Entry> {
    seq(|deps|, i requires 0 <= i < |deps| => EntryOf(deps[i]))
  }

  lemma {:induction false} PutNew(entries: seq<Entry>, e: Entry)
    requires forall x :: x in entries ==> !(x.file == e.file && x.line == e.line)
    ensures Put(entries, e) == entries + [e]
  {
    if entries != [] {
      assert entries[0] in entries;
      PutNew(entries[1..], e);
    }
  }

  lemma {:induction false} PutAllDistinct(deps: seq<Dep>, k: nat)
    requires SpacedDeps(deps) && k <= |deps|
    ensures PutAll(EntriesOf(deps[..k]), deps[k..]) == EntriesOf(deps)
    decreases |deps| - k
  {
    if k == |deps| {
      assert deps[..k] == deps;
    } else {
      forall x | x in EntriesOf(deps[..k]) ensures !(x.file == deps[k].file && x.line == ExpectedLine(deps[k])) {
        var p :| 0 <= p < k && x == EntryOf(deps[p]);
      }
      PutNew(EntriesOf(deps[..k]), EntryOf(deps[k]));
      assert EntriesOf(deps[..k + 1]) == EntriesOf(deps[..k]) + [EntryOf(deps[k])];
      assert deps[k..][1..] == deps[k + 1..];
      PutAllDistinct(deps, k + 1);
    }
  }

  lemma {:induction false} SpacedApart(deps: seq<Dep>, gap: int, d: Dep, d': Dep)
    requires SpacedBy(deps, gap) && d in deps && d' in deps && d != d'
    ensures d.name != d'.name
    ensures d.file == d'.file ==> Distance(ExpectedLine(d), ExpectedLine(d')) > gap
  {
    var p :| 0 <= p < |deps| && deps[p] == d;
    var q :| 0 <= q < |deps| && deps[q] == d';
    if p > q {
      assert deps[q].name != deps[p].name;
    }
  }

  // ----- Which comment reaches which dependency -----

  /** No two comments stand above the same line. */
  lemma {:induction false} CommentsOnDistinctLines(fd: FileDiff, i: nat, k: nat)
    requires CommentHunks(fd.hunks) && IsCommentAt(fd, i) && IsCommentAt(fd, k) && i < k
    ensures LineAt(ScriptOf(fd), i) < LineAt(ScriptOf(fd), k)
  {
    var script := ScriptOf(fd);
    CommentInHunk(fd.hunks, fd.tail, i);
    CommentAndLine(script, i);
    if i + 2 < k {
      Later(script, i + 2, k);
    }
  }

  // ----- As many comments as dependencies -----

  lemma {:induction false} AddsAreAdditions(edits: seq<Edit>, n: nat)
    ensures |AddsOf(edits, n)| == Additions(edits)
    decreases |edits|
  {
    if edits != [] {
      AddsAreAdditions(edits[1..], if edits[0].Keep? || edits[0].Add? then n + 1 else n);
    }
  }

  /** The lines above which comments stand, among the first n edits of a file. */
  ghost function CommentKeys(fd: FileDiff, n: nat): set<(string, int)>
    requires n <= |ScriptOf(fd)|
  {
    if n == 0 then {}
    else CommentKeys(fd, n - 1) + if ScriptOf(fd)[n - 1].Add? then {(fd.newName, LineAt(ScriptOf(fd), n - 1))} else {}
  }

  lemma {:induction false} KeyAt(fd: FileDiff, n: nat, key: (string, int))
    requires n <= |ScriptOf(fd)|
    ensures key in CommentKeys(fd, n) <==>
            exists i: nat :: i < n && IsCommentAt(fd, i) && key == (fd.newName, LineAt(ScriptOf(fd), i))
  {
    if n > 0 {
      KeyAt(fd, n - 1, key);
      if ScriptOf(fd)[n - 1].Add? { assert IsCommentAt(fd, n - 1); }
    }
  }

  lemma {:induction false} NewKey(fd: FileDiff, n: nat)
    requires CommentHunks(fd.hunks) && IsCommentAt(fd, n)
    ensures (fd.newName, LineAt(ScriptOf(fd), n)) !in CommentKeys(fd, n)
  {
    var key := (fd.newName, LineAt(ScriptOf(fd), n));
    KeyAt(fd, n, key);
    forall i: nat | i < n && IsCommentAt(fd, i) ensures key != (fd.newName, LineAt(ScriptOf(fd), i)) {
      CommentsOnDistinctLines(fd, i, n);
    }
  }

  lemma {:induction false} OneMoreEdit(edits: seq<Edit>, n: nat)
    requires n < |edits|
    ensures Additions(edits[..n + 1]) == Additions(edits[..n]) + if edits[n].Add? then 1 else 0
  {
    assert edits[..n + 1] == edits[..n] + [edits[n]];
    AdditionsAppend(edits[..n], [edits[n]]);
    assert [edits[n]][1..] == [];
  }

  lemma {:induction false} KeysOfFile(fd: FileDiff, n: nat)
    requires CommentHunks(fd.hunks) && n <= |ScriptOf(fd)|
    ensures |CommentKeys(fd, n)| == Additions(ScriptOf(fd)[..n])
  {
    if n > 0 {
      KeysOfFile(fd, n - 1);
      OneMoreEdit(ScriptOf(fd), n - 1);
      if ScriptOf(fd)[n - 1].Add? { NewKey(fd, n - 1); }
    }
  }

  ghost function KeysOf(fd: FileDiff): set<(string, int)> { CommentKeys(fd, |ScriptOf(fd)|) }

  ghost function AllKeys(fds: seq<FileDiff>): set<(string, int)> {
    if fds == [] then {} else KeysOf(fds[0]) + AllKeys(fds[1..])
  }

  lemma {:induction false} KeyInFile(fds: seq<FileDiff>, key: (string, int))
    ensures key in AllKeys(fds) <==> exists fd :: fd in fds && key in KeysOf(fd)
  {
    if fds != [] {
      KeyInFile(fds[1..], key);
    }
  }

  lemma {:induction false} KeysOfFiles(fds: seq<FileDiff>)
    requires DistinctFiles(fds) && forall fd :: fd in fds ==> CommentHunks(fd.hunks)
    ensures |AllKeys(fds)| == TotalComments(fds)
  {
    if fds != [] {
      var fd, rest := fds[0], fds[1..];
      assert fd in fds;
      KeysOfFiles(rest);
      KeysOfFile(fd, |ScriptOf(fd)|);
      assert ScriptOf(fd)[..|ScriptOf(fd)|] == ScriptOf(fd);
      AddsAreAdditions(ScriptOf(fd), 0);
      forall key | key in AllKeys(rest) ensures key.0 != fd.newName {
        KeyInFile(rest, key);
        var x :| x in rest && key in KeysOf(x);
        KeyAt(x, |ScriptOf(x)|, key);
        var q :| 0 <= q < |rest| && rest[q] == x;
        assert fds[q + 1] == x;
      }
      forall key | key in KeysOf(fd) ensures key.0 == fd.newName { KeyAt(fd, |ScriptOf(fd)|, key); }
      assert KeysOf(fd) !! AllKeys(rest);
    }
  }

  function KeyOf(d: Dep): (string, int) { (d.file, ExpectedLine(d)) }

  ghost function DepKeys(deps: seq<Dep>): set<(string, int)> {
    if deps == [] then {} else {KeyOf(deps[0])} + DepKeys(deps[1..])
  }

  lemma {:induction false} KeyOfDep(deps: seq<Dep>, key: (string, int))
    ensures key in DepKeys(deps) <==> exists d :: d in deps && KeyOf(d) == key
  {
    if deps != [] {
      KeyOfDep(deps[1..], key);
    }
  }

  lemma {:induction false} KeysOfDeps(deps: seq<Dep>)
    requires SpacedDeps(deps)
    ensures |DepKeys(deps)| == |deps|
  {
    if deps != [] {
      var d, rest := deps[0], deps[1..];
      KeysOfDeps(rest);
      KeyOfDep(rest, KeyOf(d));
      forall x | x in rest ensures KeyOf(x) != KeyOf(d) {
        var q :| 0 <= q < |rest| && rest[q] == x;
        assert deps[q + 1] == x;
      }
    }
  }

  lemma {:induction false} DepHasComment(fds: seq<FileDiff>, d: Dep)
    requires HasComment(fds, d)
    ensures KeyOf(d) in AllKeys(fds)
  {
    var fd, i: nat :| fd in fds && CommentAbove(fd, i, d);
    KeyAt(fd, |ScriptOf(fd)|, KeyOf(d));
    KeyInFile(fds, KeyOf(d));
  }

  lemma {:induction false} CommentHasDep(fds: seq<FileDiff>, deps: seq<Dep>, key: (string, int))
    requires forall fd, i :: fd in fds && IsCommentAt(fd, i) ==> HasDep(fd, i, deps)
    requires key in AllKeys(fds)
    ensures key in DepKeys(deps)
  {
    KeyInFile(fds, key);
    var fd :| fd in fds && key in KeysOf(fd);
    KeyAt(fd, |ScriptOf(fd)|, key);
    var i: nat :| IsCommentAt(fd, i) && key == (fd.newName, LineAt(ScriptOf(fd), i));
    assert HasDep(fd, i, deps);
    var d :| d in deps && CommentAbove(fd, i, d);
    KeyOfDep(deps, key);
  }

  /** An annotated patch has as many comments as there are dependencies. */
  lemma {:induction false} CommentsAreDeps(fds: seq<FileDiff>, deps: seq<Dep>, target: string)
    requires Annotated(fds, deps, target)
    ensures TotalComments(fds) == |deps|
  {
    forall key | key in DepKeys(deps) ensures key in AllKeys(fds) {
      KeyOfDep(deps, key);
      var d :| d in deps && KeyOf(d) == key;
      DepHasComment(fds, d);
    }
    forall key | key in AllKeys(fds) ensures key in DepKeys(deps) { CommentHasDep(fds, deps, key); }
    assert AllKeys(fds) == DepKeys(deps);
    KeysOfFiles(fds);
    KeysOfDeps(deps);
  }

  /** A comment within reach of a dependency stands directly above it and has at most four
      comments below, provided there is room for those below the dependency's own comment. */
  lemma {:induction false} ReachedIsOwn(fds: seq<FileDiff>, deps: seq<Dep>, target: string, gap: int,
                                        fd: FileDiff, i: nat, d: Dep, k: nat)
    requires Annotated(fds, deps, target) && gap >= 10 && SpacedBy(deps, gap) && fd in fds && d in deps
    requires IsCommentAt(fd, i) && CommentAbove(fd, k, d) && CommentsBelow(fd.hunks, k) <= gap - 5
    ensures Matches(EntryOf(d), Expected(fd), NumAt(ScriptOf(fd), i)) <==> i == k && CommentsBelow(fd.hunks, k) <= 4
  {
    if i == k {
      OwnDistance(fd.hunks, fd.tail, i);
    } else {
      assert HasDep(fd, i, deps);
      var d' :| d' in deps && CommentAbove(fd, i, d');
      if i < k { CommentsOnDistinctLines(fd, i, k); } else { CommentsOnDistinctLines(fd, k, i); }
      SpacedApart(deps, gap, d, d');
      OtherDistance(fd.hunks, fd.tail, i, k, gap);
    }
  }

  lemma {:induction false} SameFile(fds: seq<FileDiff>, a: FileDiff, b: FileDiff)
    requires DistinctFiles(fds) && a in fds && b in fds && a.newName == b.newName
    ensures a == b
  {
    var p :| 0 <= p < |fds| && fds[p] == a;
    var q :| 0 <= q < |fds| && fds[q] == b;
    assert p <= q && q <= p;
  }

  lemma {:induction false} BelowIsSmall(fds: seq<FileDiff>, comments: int, fd: FileDiff, i: nat)
    requires HunksUpTo(fds, comments) && fd in fds && CommentHunks(fd.hunks) && IsCommentAt(fd, i)
    ensures CommentsBelow(fd.hunks, i) < comments
  {
    CommentInHunk(fd.hunks, fd.tail, i);
    var h :| h in fd.hunks && CommentsBelow(fd.hunks, i) < Additions(h.body);
    assert Additions(h.body) <= comments;
  }

  /** If the hunks are small for the distances, a comment reaches no dependency but its own,
      and that only if at most four comments follow it in the hunk. */
  lemma {:induction false} ReachesOnlyOwn(fds: seq<FileDiff>, deps: seq<Dep>, target: string, gap: int,
                                          fd: FileDiff, i: nat, d: Dep, d': Dep)
    requires Annotated(fds, deps, target) && gap >= 10 && SpacedBy(deps, gap) && HunksUpTo(fds, gap - 4)
    requires fd in fds && d in deps && d' in deps && CommentAbove(fd, i, d)
    requires Matches(EntryOf(d'), Expected(fd), NumAt(ScriptOf(fd), i))
    ensures d' == d && CommentsBelow(fd.hunks, i) <= 4
  {
    assert HasComment(fds, d');
    var fd', k: nat :| fd' in fds && CommentAbove(fd', k, d');
    SameFile(fds, fd, fd');
    BelowIsSmall(fds, gap - 4, fd, k);
    ReachedIsOwn(fds, deps, target, gap, fd, i, d', k);
    assert ExpectedLine(d) == ExpectedLine(d') && d.file == d'.file;
    assert d == d' by {
      if d != d' { SpacedApart(deps, gap, d, d'); }
    }
  }

  lemma {:induction false} EntriesMember(deps: seq<Dep>, e: Entry)
    ensures e in EntriesOf(deps) <==> exists d :: d in deps && e == EntryOf(d)
  {
    if e in EntriesOf(deps) {
      var q :| 0 <= q < |deps| && e == EntriesOf(deps)[q];
      assert deps[q] in deps;
    }
    if d :| d in deps && e == EntryOf(d) {
      var p :| 0 <= p < |deps| && deps[p] == d;
      assert EntriesOf(deps)[p] == e;
    }
  }

  /** Then the first dependency within reach of a comment is its own, or there is none. */
  lemma {:induction false} FirstMatchIsOwn(fds: seq<FileDiff>, deps: seq<Dep>, target: string, gap: int,
                                           fd: FileDiff, i: nat, d: Dep)
    requires Annotated(fds, deps, target) && gap >= 10 && SpacedBy(deps, gap) && HunksUpTo(fds, gap - 4)
    requires fd in fds && d in deps && CommentAbove(fd, i, d)
    ensures FirstMatch(EntriesOf(deps), Expected(fd), NumAt(ScriptOf(fd), i)) ==
            if CommentsBelow(fd.hunks, i) <= 4 then Some(EntryOf(d)) else None
  {
    var f, num := Expected(fd), NumAt(ScriptOf(fd), i);
    var m := FirstMatch(EntriesOf(deps), f, num);
    FirstMatchIsEntry(EntriesOf(deps), f, num);
    BelowIsSmall(fds, gap - 4, fd, i);
    ReachedIsOwn(fds, deps, target, gap, fd, i, d, i);
    EntriesMember(deps, EntryOf(d));
    if m.Some? {
      EntriesMember(deps, m.value);
      var d' :| d' in deps && m.value == EntryOf(d');
      ReachesOnlyOwn(fds, deps, target, gap, fd, i, d, d');
    }
  }

  lemma {:induction false} EntryByName(deps: seq<Dep>, e: Entry, d: Dep)
    requires SpacedDeps(deps) && d in deps && e in EntriesOf(deps) && e.name == d.name
    ensures e == EntryOf(d)
  {
    EntriesMember(deps, e);
    var d' :| d' in deps && e == EntryOf(d');
    if d' != d { SpacedApart(deps, 10, d, d'); }
  }

  /** A dependency whose comment has exactly five below it is reached by no comment. */
  lemma {:induction false} FiveBelowIsMissed(fds: seq<FileDiff>, deps: seq<Dep>, target: string,
                                             fd: FileDiff, k: nat, d: Dep, fd': FileDiff, a: AddedLine)
    requires Annotated(fds, deps, target) && fd in fds && d in deps
    requires CommentAbove(fd, k, d) && CommentsBelow(fd.hunks, k) == 5
    requires fd' in fds && a in AddsOf(ScriptOf(fd'), 0)
    ensures var m := FirstMatch(EntriesOf(deps), Expected(fd'), a.num);
            m.Some? ==> m.value.name != d.name
  {
    var m := FirstMatch(EntriesOf(deps), Expected(fd'), a.num);
    FirstMatchIsEntry(EntriesOf(deps), Expected(fd'), a.num);
    if m.Some? && m.value.name == d.name {
      EntryByName(deps, m.value, d);
      SameFile(fds, fd, fd');
      AddsAreNewLines(ScriptOf(fd));
      var i :| AddAt(ScriptOf(fd), i, a);
      assert IsCommentAt(fd, i);
      ReachedIsOwn(fds, deps, target, 10, fd, i, d, k);
    }
  }
}
