/** How many comments one hunk of an annotated patch can hold: one with the context lines
    that git prints by default, more than five only with a larger context. */
module DepContext {
  import opened Options
  import opened Text
  import opened UnifiedDiff
  import opened PatchParser
  import opened LineOffset
  import opened DepSearch
  import opened DepMatching
  import opened DepScores

  /** Two changes share a hunk if at most twice the context lies between them. */
  const CONTEXT := 3

  ghost predicate Consecutive(body: seq<Edit>, j: int, k: int) {
    0 <= j < k < |body| && body[j].Add? && body[k].Add? && forall m :: j < m < k ==> !body[m].Add?
  }

  ghost predicate CloseAdditions(body: seq<Edit>) {
    forall j, k :: Consecutive(body, j, k) ==> k - j - 1 <= 2 * CONTEXT
  }

  /** Every hunk body could have been printed with the default context. */
  ghost predicate DefaultContext(fds: seq<FileDiff>) {
    forall fd, h :: fd in fds && h in fd.hunks ==> CloseAdditions(h.body)
  }

  // ----- With the default context -----

  lemma {:induction false} InsideSecond(first: seq<Edit>, second: seq<Edit>, q: nat, n: nat)
    requires q + n <= |second|
    ensures (first + second)[|first| + q..|first| + q + n] == second[q..q + n]
  {
  }

  lemma {:induction false} HunkInScript(hunks: seq<Hunk>, tail: seq<string>, h: Hunk) returns (p: nat)
    requires h in hunks
    ensures p + |h.body| <= |Script(hunks, tail)| && Script(hunks, tail)[p..p + |h.body|] == h.body
    decreases |hunks|
  {
    var script, h0, rest := Script(hunks, tail), hunks[0], Script(hunks[1..], tail);
    if h == h0 {
      p := |h.skip|;
      assert script[p..p + |h.body|] == h.body;
    } else {
      assert h in hunks[1..];
      var q := HunkInScript(hunks[1..], tail, h);
      p := |h0.skip| + |h0.body| + q;
      assert script == (KeepAll(h0.skip) + h0.body) + rest;
      InsideSecond(KeepAll(h0.skip) + h0.body, rest, q, |h.body|);
    }
  }

  lemma {:induction false} OldCountBound(edits: seq<Edit>)
    ensures OldCount(edits) <= |edits|
  {
    if edits != [] { OldCountBound(edits[1..]); }
  }

  lemma {:induction false} LinesGrow(script: seq<Edit>, i: nat, k: nat)
    requires i <= k <= |script|
    ensures LineAt(script, k) <= LineAt(script, i) + (k - i)
  {
    assert script[..k] == script[..i] + script[i..k];
    TextAppend(script[..i], script[i..k]);
    OldCountBound(script[i..k]);
  }

  /** Two comments of an annotated file are more than ten places apart. */
  lemma {:induction false} CommentsApart(fds: seq<FileDiff>, deps: seq<Dep>, target: string, fd: FileDiff, i: nat, k: nat)
    requires Annotated(fds, deps, target) && fd in fds && i < k && IsCommentAt(fd, i) && IsCommentAt(fd, k)
    ensures k - i > 10
  {
    assert HasDep(fd, i, deps) && HasDep(fd, k, deps);
    var d :| d in deps && CommentAbove(fd, i, d);
    var d' :| d' in deps && CommentAbove(fd, k, d');
    CommentsOnDistinctLines(fd, i, k);
    SpacedApart(deps, 10, d, d');
    LinesGrow(ScriptOf(fd), i, k);
  }

  /** So are two comments of one hunk. */
  lemma {:induction false} CommentsFarApart(fds: seq<FileDiff>, deps: seq<Dep>, target: string, fd: FileDiff, h: Hunk, j: nat, k: nat)
    requires Annotated(fds, deps, target) && fd in fds && h in fd.hunks
    requires j < k < |h.body| && h.body[j].Add? && h.body[k].Add?
    ensures k - j > 10
  {
    var p := HunkInScript(fd.hunks, fd.tail, h);
    var slice := ScriptOf(fd)[p..p + |h.body|];
    assert ScriptOf(fd)[p + j] == slice[j] && ScriptOf(fd)[p + k] == slice[k];
    CommentsApart(fds, deps, target, fd, p + j, p + k);
  }

  lemma {:induction false} TwoAdditions(body: seq<Edit>) returns (j: nat, k: nat)
    requires Additions(body) > 1
    ensures Consecutive(body, j, k)
  {
    if body[0].Add? {
      j := 0;
      var k' := FirstAddition(body[1..]);
      k := k' + 1;
      assert body[k] == body[1..][k - 1];
      forall m | j < m < k ensures !body[m].Add? { assert body[m] == body[1..][m - 1]; }
    } else {
      var j', k' := TwoAdditions(body[1..]);
      j, k := j' + 1, k' + 1;
      forall m | j < m < k ensures !body[m].Add? { assert body[m] == body[1..][m - 1]; }
    }
  }

  lemma {:induction false} FirstAddition(body: seq<Edit>) returns (k: nat)
    requires Additions(body) > 0
    ensures k < |body| && body[k].Add? && forall m :: 0 <= m < k ==> !body[m].Add?
  {
    if body[0].Add? {
      k := 0;
    } else {
      var k' := FirstAddition(body[1..]);
      k := k' + 1;
      forall m | 0 <= m < k ensures !body[m].Add? {
        if m > 0 { assert body[m] == body[1..][m - 1]; }
      }
    }
  }

  lemma {:induction false} OneCommentPerHunk(fds: seq<FileDiff>, deps: seq<Dep>, target: string, fd: FileDiff, h: Hunk)
    requires Annotated(fds, deps, target) && DefaultContext(fds) && fd in fds && h in fd.hunks
    ensures Additions(h.body) <= 1
  {
    if Additions(h.body) > 1 {
      var j, k := TwoAdditions(h.body);
      CommentsFarApart(fds, deps, target, fd, h, j, k);
      assert false;
    }
  }

  /** So with the default context the evaluation never fails a patch that does exactly what
      was asked. */
  lemma {:induction false} DefaultContextSucceeds(fds: seq<FileDiff>, deps: seq<Dep>, target: string)
    requires Annotated(fds, deps, target) && DefaultContext(fds)
    ensures SmallHunks(fds)
    ensures var r := Evaluate(deps, target, PrintPatch(fds));
            r.truePositives == |deps| && r.falsePositives == 0 && r.duplicates == 0 && r.fullSuccess
  {
    forall fd, h | fd in fds && h in fd.hunks ensures Additions(h.body) <= 5 {
      OneCommentPerHunk(fds, deps, target, fd, h);
    }
    FullSuccess(fds, deps, target);
  }

  // ----- With a larger context -----

  const TARGET := "f"
  const COMMENT := "# used by f"
  const STEP := 12

  /** One hunk that shows n functions of eleven lines, with a comment above each. */
  function WideEdit(p: nat): Edit { if p % STEP == 0 then Add(COMMENT) else Keep("x") }

  function WideBody(n: nat): seq<Edit> { seq(STEP * n, p requires 0 <= p => WideEdit(p)) }

  function WidePatch(n: nat): seq<FileDiff> {
    [FileDiff("a.py", "a.py", [], [Hunk([], WideBody(n), "")], [])]
  }

  function WideDep(i: nat): Dep { Dep(seq(i, _ => 'd'), "a.py", (STEP - 1) * i, None) }

  function WideDeps(n: nat): seq<Dep> { seq(n, i requires 0 <= i => WideDep(i)) }

  /** The comments among the first p edits. */
  function CommentsIn(p: nat): nat { (p + STEP - 1) / STEP }

  lemma {:induction false} WideScript(n: nat)
    ensures ScriptOf(WidePatch(n)[0]) == WideBody(n)
  {
    var fd := WidePatch(n)[0];
    var none: seq<Hunk> := [];
    assert fd.hunks[1..] == none;
    assert Script(none, fd.tail) == KeepAll([]) == [];
    assert ScriptOf(fd) == KeepAll([]) + WideBody(n) + [];
  }

  lemma {:induction false} WideCounts(n: nat, p: nat)
    requires p <= STEP * n
    ensures OldCount(WideBody(n)[..p]) == p - CommentsIn(p)
    ensures Additions(WideBody(n)[..p]) == CommentsIn(p)
  {
    if p > 0 {
      var body := WideBody(n);
      assert body[..p] == body[..p - 1] + [body[p - 1]];
      TextAppend(body[..p - 1], [body[p - 1]]);
      AdditionsAppend(body[..p - 1], [body[p - 1]]);
      assert [body[p - 1]][1..] == [];
      WideCounts(n, p - 1);
    }
  }

  lemma {:induction false} TextOfComment()
    ensures CommentText(COMMENT) == Some("used by f")
  {
    assert TrimLeft(COMMENT, IsSpace) == COMMENT && TrimRight(COMMENT, IsSpace) == COMMENT;
    assert Lower(COMMENT) == COMMENT;
    var rest := COMMENT[1..];
    assert rest[1..] == "used by f";
    assert TrimLeft(rest[1..], IsSpace) == rest[1..];
  }

  lemma {:induction false} CommentIsAccepted()
    ensures CheckCommentContent(COMMENT, TARGET)
  {
    TextOfComment();
    assert "used by f"[8..9] == "f";
    ContainsAt("used by f", "f", 8);
    assert Lower(TARGET) == "f";
  }

  lemma {:induction false} WideComments(n: nat, i: nat)
    requires i < n
    ensures CommentAbove(WidePatch(n)[0], STEP * i, WideDep(i))
    ensures WideDep(i) in WideDeps(n)
  {
    WideScript(n);
    WideCounts(n, STEP * i);
    assert WideDeps(n)[i] == WideDep(i);
  }

  lemma {:induction false} WideHasDep(n: nat, p: nat)
    requires IsCommentAt(WidePatch(n)[0], p)
    ensures HasDep(WidePatch(n)[0], p, WideDeps(n))
  {
    WideScript(n);
    var i := p / STEP;
    assert p == STEP * i;
    WideComments(n, i);
  }

  lemma {:induction false} WideBodyIsClean(n: nat)
    ensures OnlyComments(WideBody(n)) && CleanBody(WideBody(n)) && (n > 0 ==> OldCount(WideBody(n)) > 0)
  {
    var body := WideBody(n);
    forall j | 0 <= j < |body| && body[j].Add? ensures j + 1 < |body| && body[j + 1].Keep? {
      assert j % STEP == 0;
    }
    assert COMMENT[0] == '#';
    WideCounts(n, STEP * n);
    assert body[..STEP * n] == body;
  }

  lemma {:induction false} WideFileIsClean(n: nat)
    requires n > 0
    ensures var fd := WidePatch(n)[0]; WellFormed(fd) && CleanFile(fd) && CommentHunks(fd.hunks)
  {
    WideBodyIsClean(n);
    forall k ensures !SeparatorAt("a.py", k) {
      if k == 0 {
        assert "a.py"[0..3][0] != " b/"[0];
      }
    }
  }

  lemma {:induction false} WideDepsAreSpaced(n: nat)
    ensures SpacedDeps(WideDeps(n))
  {
    forall p, q | 0 <= p < q < n
      ensures WideDep(p).name != WideDep(q).name && Distance(ExpectedLine(WideDep(p)), ExpectedLine(WideDep(q))) > 10
    {
      assert |WideDep(p).name| == p && |WideDep(q).name| == q;
    }
  }

  lemma {:induction false} WideAdds(n: nat, a: AddedLine)
    requires a in AddsOf(WideBody(n), 0)
    ensures a.content == COMMENT
  {
    AddsAreNewLines(WideBody(n));
    var i :| AddAt(WideBody(n), i, a);
    assert WideBody(n)[i] == WideEdit(i);
  }

  lemma {:induction false} WideContent(n: nat)
    ensures AcceptedContent(WidePatch(n), TARGET)
  {
    WideScript(n);
    CommentIsAccepted();
    var fd := WidePatch(n)[0];
    assert forall x :: x in WidePatch(n) ==> x == fd;
    forall a | a in AddsOf(ScriptOf(fd), 0) ensures CheckCommentContent(a.content, TARGET) {
      WideAdds(n, a);
    }
  }

  /** The patch does exactly what was asked, whatever the number of functions. */
  lemma {:induction false} WidePatchIsAnnotated(n: nat)
    requires n > 0
    ensures Annotated(WidePatch(n), WideDeps(n), TARGET)
  {
    var fds, deps := WidePatch(n), WideDeps(n);
    WideFileIsClean(n);
    WideDepsAreSpaced(n);
    WideContent(n);
    forall d | d in deps ensures HasComment(fds, d) {
      var i :| 0 <= i < n && d == WideDep(i);
      WideComments(n, i);
    }
    forall p: nat | IsCommentAt(fds[0], p) ensures HasDep(fds[0], p, deps) { WideHasDep(n, p); }
  }

  /** Printed with six lines of context or more, it is no full success from six functions on. */
  lemma {:induction false} WidePatchFails(n: nat)
    requires n > 0
    ensures Annotated(WidePatch(n), WideDeps(n), TARGET)
    ensures Evaluate(WideDeps(n), TARGET, PrintPatch(WidePatch(n))).fullSuccess <==> n <= 5
  {
    WidePatchIsAnnotated(n);
    FullSuccess(WidePatch(n), WideDeps(n), TARGET);
    WideCounts(n, STEP * n);
    assert WideBody(n)[..STEP * n] == WideBody(n);
    var fd := WidePatch(n)[0];
    assert fd.hunks[0] in fd.hunks && fd in WidePatch(n);
  }
}
