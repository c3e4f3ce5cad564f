/** Where an original line lands after a patch: the closed form of the evaluator
    against the edit script itself. */
module LineOffset {
  import opened Sequences
  import opened UnifiedDiff

  // ----- The evaluator's computation -----

  function InsertByOldStart(h: Header, hs: seq<Header>): seq<Header> {
    if hs == [] || h.oldStart <= hs[0].oldStart then [h] + hs
    else [hs[0]] + InsertByOldStart(h, hs[1..])
  }

  /** A stable sort on the old start line. */
  function SortByOldStart(hs: seq<Header>): seq<Header> {
    if hs == [] then [] else InsertByOldStart(hs[0], SortByOldStart(hs[1..]))
  }

  ghost predicate OrderedByOldStart(hs: seq<Header>) {
    |hs| < 2 || (hs[0].oldStart <= hs[1].oldStart && OrderedByOldStart(hs[1..]))
  }

  lemma {:induction false} InsertKeepsOrder(h: Header, hs: seq<Header>)
    requires OrderedByOldStart(hs)
    ensures OrderedByOldStart(InsertByOldStart(h, hs))
  {
    if hs != [] && hs[0].oldStart < h.oldStart {
      InsertKeepsOrder(h, hs[1..]);
      assert InsertByOldStart(h, hs)[1..] == InsertByOldStart(h, hs[1..]);
    } else {
      assert InsertByOldStart(h, hs)[1..] == hs;
    }
  }

  lemma {:induction false} InsertAddsOne(h: Header, hs: seq<Header>)
    ensures multiset(InsertByOldStart(h, hs)) == multiset{h} + multiset(hs)
  {
    if hs != [] && hs[0].oldStart < h.oldStart {
      InsertAddsOne(h, hs[1..]);
      assert hs == [hs[0]] + hs[1..];
    }
  }

  lemma {:induction false} InsertAtFront(h: Header, hs: seq<Header>)
    requires hs == [] || h.oldStart <= hs[0].oldStart
    ensures InsertByOldStart(h, hs) == [h] + hs
  {
  }

  lemma {:induction false} SortPermutes(hs: seq<Header>)
    ensures multiset(SortByOldStart(hs)) == multiset(hs)
  {
    if hs != [] {
      SortPermutes(hs[1..]);
      InsertAddsOne(hs[0], SortByOldStart(hs[1..]));
      assert hs == [hs[0]] + hs[1..];
    }
  }

  lemma {:induction false} SortOrders(hs: seq<Header>)
    ensures OrderedByOldStart(SortByOldStart(hs))
    ensures OrderedByOldStart(hs) ==> SortByOldStart(hs) == hs
  {
    if hs != [] {
      SortOrders(hs[1..]);
      InsertKeepsOrder(hs[0], SortByOldStart(hs[1..]));
      if OrderedByOldStart(hs) {
        InsertAtFront(hs[0], hs[1..]);
        assert hs == [hs[0]] + hs[1..];
      }
    }
  }

  /** The headers that start at the line, in their order. */
  function StartingAt(hs: seq<Header>, line: int): seq<Header> {
    if hs == [] then [] else OnlyAt(hs[0], line) + StartingAt(hs[1..], line)
  }

  function OnlyAt(h: Header, line: int): seq<Header> { if h.oldStart == line then [h] else [] }

  lemma {:induction false} InsertIsStable(h: Header, hs: seq<Header>, line: int)
    ensures StartingAt(InsertByOldStart(h, hs), line) == OnlyAt(h, line) + StartingAt(hs, line)
  {
    if hs == [] || h.oldStart <= hs[0].oldStart {
      assert ([h] + hs)[1..] == hs;
    } else {
      var rest := InsertByOldStart(h, hs[1..]);
      InsertIsStable(h, hs[1..], line);
      assert ([hs[0]] + rest)[1..] == rest;
      Swap(OnlyAt(hs[0], line), OnlyAt(h, line), StartingAt(hs[1..], line));
    }
  }

  lemma {:induction false} SortKeepsTies(hs: seq<Header>, line: int)
    ensures StartingAt(SortByOldStart(hs), line) == StartingAt(hs, line)
  {
    if hs != [] {
      SortKeepsTies(hs[1..], line);
      InsertIsStable(hs[0], SortByOldStart(hs[1..]), line);
    }
  }

  /** The sort returns an ordered permutation, keeps the order of headers that start at the
      same line, and leaves an ordered list alone. */
  lemma {:induction false} SortIsStableOrder(hs: seq<Header>, line: int)
    ensures OrderedByOldStart(SortByOldStart(hs))
    ensures multiset(SortByOldStart(hs)) == multiset(hs)
    ensures StartingAt(SortByOldStart(hs), line) == StartingAt(hs, line)
    ensures OrderedByOldStart(hs) ==> SortByOldStart(hs) == hs
  {
    SortPermutes(hs);
    SortOrders(hs);
    SortKeepsTies(hs, line);
  }

  /** Line shift just after a hunk, as its header states it. */
  function EndShift(h: Header): int {
    (h.newStart + h.newCount) - (h.oldStart + h.oldCount)
  }

  function OffsetFrom(hs: seq<Header>, line: int, cumulative: int): int {
    if hs == [] || line < hs[0].oldStart then cumulative
    else if line < hs[0].oldStart + hs[0].oldCount then cumulative + (hs[0].newCount - hs[0].oldCount)
    else OffsetFrom(hs[1..], line, EndShift(hs[0]))
  }

  function OffsetAt(hs: seq<Header>, line: int): int {
    OffsetFrom(SortByOldStart(hs), line, 0)
  }

  method ComputeLineOffset(hunks: seq<Header>, originalLine: int) returns (offset: int)
    ensures offset == OffsetAt(hunks, originalLine)
  {
    if hunks == [] {
      return 0;
    }
    var cumulativeOffset: int := 0;
    var sorted := SortByOldStart(hunks);
    for i := 0 to |sorted|
      invariant OffsetFrom(sorted[i..], originalLine, cumulativeOffset) == OffsetAt(hunks, originalLine)
    {
      var h := sorted[i];
      assert sorted[i..][1..] == sorted[i + 1..];
      if originalLine < h.oldStart {
        return cumulativeOffset;
      }
      var oldEnd := h.oldStart + h.oldCount;
      if originalLine < oldEnd {
        return cumulativeOffset + (h.newCount - h.oldCount);
      }
      cumulativeOffset := (h.newStart + h.newCount) - (h.oldStart + h.oldCount);
    }
    return cumulativeOffset;
  }

  // ----- When the closed form is right -----

  ghost predicate TwoSided(h: Header) { h.oldCount > 0 && h.newCount > 0 }

  /** The last header that starts at or before the line, `prev` if there is none. */
  datatype Last = Nothing | Just(h: Header)

  ghost function LastStarted(hs: seq<Header>, line: int, prev: Last): Last {
    if hs == [] || line < hs[0].oldStart then prev else LastStarted(hs[1..], line, Just(hs[0]))
  }

  /** Nothing precedes the line, or the hunk before it has lines on both sides. */
  ghost predicate Reliable(prev: Last) { prev.Just? ==> TwoSided(prev.h) }

  ghost predicate NoEmptyHunk(hunks: seq<Hunk>) {
    forall h :: h in hunks ==> OldCount(h.body) + NewCount(h.body) > 0
  }

  ghost predicate HeadersAfter(hs: seq<Header>, o: nat) {
    OrderedByOldStart(hs) && forall h :: h in hs ==> o <= h.oldStart
  }

  lemma {:induction false} HeadersAreOrdered(hunks: seq<Hunk>, o: nat, n: nat)
    ensures HeadersAfter(HeadersFrom(hunks, o, n), o)
  {
    if hunks != [] {
      var o', n' := o + |hunks[0].skip|, n + |hunks[0].skip|;
      HeadersAreOrdered(hunks[1..], o' + OldCount(hunks[0].body), n' + NewCount(hunks[0].body));
    }
  }

  /** On the headers of a patch, which are in order, the sort does nothing. */
  lemma {:induction false} OffsetOfPatch(hunks: seq<Hunk>, line: int)
    ensures OffsetAt(HeadersFrom(hunks, 0, 0), line) == OffsetFrom(HeadersFrom(hunks, 0, 0), line, 0)
  {
    HeadersAreOrdered(hunks, 0, 0);
    SortOrders(HeadersFrom(hunks, 0, 0));
  }

  /** Lines of the old and of the new file up to the end of the last hunk. */
  function OldSpan(hunks: seq<Hunk>): nat {
    if hunks == [] then 0 else |hunks[0].skip| + OldCount(hunks[0].body) + OldSpan(hunks[1..])
  }

  function NewSpan(hunks: seq<Hunk>): nat {
    if hunks == [] then 0 else |hunks[0].skip| + NewCount(hunks[0].body) + NewSpan(hunks[1..])
  }

  lemma {:induction false} ScriptSpan(hunks: seq<Hunk>, tail: seq<string>)
    ensures OldCount(Script(hunks, tail)) == OldSpan(hunks) + |tail|
    ensures NewCount(Script(hunks, tail)) == NewSpan(hunks) + |tail|
  {
    if hunks == [] {
      KeepAllText(tail);
    } else {
      var h, rest := hunks[0], hunks[1..];
      KeepAllText(h.skip);
      TextAppend(KeepAll(h.skip), h.body);
      TextAppend(KeepAll(h.skip) + h.body, Script(rest, tail));
      ScriptSpan(rest, tail);
    }
  }

  /** The loop passes every header that ends at or before the line. */
  lemma {:induction false} PassHeaders(a: seq<Header>, rest: seq<Header>, line: int, cumulative: int, prev: Last)
    requires forall h :: h in a ==> h.oldStart + h.oldCount <= line
    ensures OffsetFrom(a + rest, line, cumulative)
            == OffsetFrom(rest, line, if a == [] then cumulative else EndShift(a[|a| - 1]))
    ensures LastStarted(a + rest, line, prev)
            == LastStarted(rest, line, if a == [] then prev else Just(a[|a| - 1]))
  {
    if a == [] {
      assert a + rest == rest;
    } else {
      assert (a + rest)[1..] == a[1..] + rest;
      PassHeaders(a[1..], rest, line, EndShift(a[0]), Just(a[0]));
    }
  }

  lemma {:induction false} HeadersCons(h: Hunk, rest: seq<Hunk>, o: nat, n: nat)
    ensures HeadersFrom([h] + rest, o, n)
            == [HeaderOf(h, o + |h.skip|, n + |h.skip|)]
               + HeadersFrom(rest, o + |h.skip| + OldCount(h.body), n + |h.skip| + NewCount(h.body))
  {
    assert ([h] + rest)[1..] == rest;
  }

  lemma {:induction false} HeadersSplit(before: seq<Hunk>, after: seq<Hunk>, o: nat, n: nat)
    ensures HeadersFrom(before + after, o, n)
            == HeadersFrom(before, o, n) + HeadersFrom(after, o + OldSpan(before), n + NewSpan(before))
    decreases |before|
  {
    if before == [] {
      assert before + after == after;
    } else {
      var h, more := before[0], before[1..];
      var o', n' := o + |h.skip| + OldCount(h.body), n + |h.skip| + NewCount(h.body);
      assert before == [h] + more && before + after == [h] + (more + after);
      HeadersCons(h, more + after, o, n);
      HeadersCons(h, more, o, n);
      HeadersSplit(more, after, o', n');
      Assoc([HeaderOf(h, o + |h.skip|, n + |h.skip|)], HeadersFrom(more, o', n'),
            HeadersFrom(after, o' + OldSpan(more), n' + NewSpan(more)));
    }
  }

  /** The headers of a list of hunks end where the hunks end, and the shift that
      the last one states is right exactly if it has lines on both sides. */
  lemma {:induction false} HeadersEnd(hunks: seq<Hunk>, o: nat, n: nat)
    requires NoEmptyHunk(hunks)
    ensures |HeadersFrom(hunks, o, n)| == |hunks|
    ensures forall h :: h in HeadersFrom(hunks, o, n) ==> h.oldStart + h.oldCount <= o + OldSpan(hunks) + 1
    ensures hunks != [] ==>
              var last := HeadersFrom(hunks, o, n)[|hunks| - 1];
              EndShift(last) == (n + NewSpan(hunks)) - (o + OldSpan(hunks)) <==> TwoSided(last)
  {
    HeadersLength(hunks, o, n);
    if hunks != [] {
      var o', n' := o + |hunks[0].skip|, n + |hunks[0].skip|;
      HeadersEnd(hunks[1..], o' + OldCount(hunks[0].body), n' + NewCount(hunks[0].body));
    }
  }

  /** Once the line lies past the hunks `before`, the loop has reached the hunks
      `after` with a running offset that is right exactly if the last hunk passed
      has lines on both sides. */
  lemma {:induction false} PassHunks(before: seq<Hunk>, after: seq<Hunk>, line: int) returns (cum: int, last: Last)
    requires NoEmptyHunk(before)
    requires line > OldSpan(before)
    ensures var hs, rest := HeadersFrom(before + after, 0, 0), HeadersFrom(after, OldSpan(before), NewSpan(before));
            OffsetFrom(hs, line, 0) == OffsetFrom(rest, line, cum) &&
            LastStarted(hs, line, Nothing) == LastStarted(rest, line, last)
    ensures cum == NewSpan(before) - OldSpan(before) <==> Reliable(last)
    ensures |HeadersFrom(before + after, 0, 0)| == |before| + |after|
    ensures last == if before == [] then Nothing else Just(HeadersFrom(before + after, 0, 0)[|before| - 1])
  {
    HeadersSplit(before, after, 0, 0);
    HeadersLength(before, 0, 0);
    HeadersLength(before + after, 0, 0);
    HeadersEnd(before, 0, 0);
    var a := HeadersFrom(before, 0, 0);
    PassHeaders(a, HeadersFrom(after, OldSpan(before), NewSpan(before)), line, 0, Nothing);
    cum, last := if before == [] then 0 else EndShift(a[|a| - 1]), if before == [] then Nothing else Just(a[|a| - 1]);
  }

  /** Insertions printed right after the line itself count as started and spoil the
      prediction. */
  lemma {:induction false} InsertionsAt(after: seq<Hunk>, line: nat, n: nat, cumulative: int, prev: Last, p: nat)
    requires NoEmptyHunk(after) && n >= p && cumulative > p - line
    requires prev.Just? && !TwoSided(prev.h)
    ensures OffsetFrom(HeadersFrom(after, line, n), line, cumulative) > p - line
    ensures !Reliable(LastStarted(HeadersFrom(after, line, n), line, prev))
    decreases |after|
  {
    if after != [] {
      var h := after[0];
      var hd := HeaderOf(h, line + |h.skip|, n + |h.skip|);
      if hd.oldStart <= line {
        InsertionsAt(after[1..], line, n + NewCount(h.body), EndShift(hd), Just(hd), p);
      }
    }
  }

  /** For the last line of a gap, once the loop has reached it with a running offset that
      is right exactly if the last hunk passed is reliable. */
  lemma {:induction false} GapPrediction(gap: seq<string>, after: seq<Hunk>, o: nat, n: nat, cum: int, last: Last)
    requires NoEmptyHunk(after) && gap != [] && (after == [] || gap <= after[0].skip)
    requires cum == n - o <==> Reliable(last)
    ensures var line, p := o + |gap|, n + |gap|;
            var rest := HeadersFrom(after, o, n);
            line + OffsetFrom(rest, line, cum) == p <==> Reliable(LastStarted(rest, line, last))
  {
    if after != [] {
      var h, more := after[0], after[1..];
      var hd := HeaderOf(h, o + |h.skip|, n + |h.skip|);
      assert after == [h] + more;
      HeadersCons(h, more, o, n);
      if hd.oldStart <= o + |gap| {
        assert hd.oldCount == 0 && |h.skip| == |gap|;
        AtInsertion(h, more, o, n, cum, last);
      }
    }
  }

  lemma {:induction false} PassEmptySide(hd: Header, hs: seq<Header>, line: int, cum: int, last: Last)
    requires hd.oldStart <= line && hd.oldCount == 0
    ensures OffsetFrom([hd] + hs, line, cum) == OffsetFrom(hs, line, EndShift(hd))
    ensures LastStarted([hd] + hs, line, last) == LastStarted(hs, line, Just(hd))
  {
    assert ([hd] + hs)[1..] == hs;
  }

  lemma {:induction false} NoEmptyParts(h: Hunk, more: seq<Hunk>)
    requires NoEmptyHunk([h] + more)
    ensures OldCount(h.body) + NewCount(h.body) > 0 && NoEmptyHunk(more)
  {
    assert h in [h] + more && forall x :: x in more ==> x in [h] + more;
  }

  /** The line just before an insertion-only hunk. */
  lemma {:induction false} AtInsertion(h: Hunk, more: seq<Hunk>, o: nat, n: nat, cum: int, last: Last)
    requires NoEmptyHunk([h] + more) && OldCount(h.body) == 0
    ensures var line, p, rest := o + |h.skip|, n + |h.skip|, HeadersFrom([h] + more, o, n);
            line + OffsetFrom(rest, line, cum) != p && !Reliable(LastStarted(rest, line, last))
  {
    var line, p := o + |h.skip|, n + |h.skip|;
    var hd := HeaderOf(h, line, p);
    var hs := HeadersFrom(more, line, p + NewCount(h.body));
    NoEmptyParts(h, more);
    HeadersCons(h, more, o, n);
    PassEmptySide(hd, hs, line, cum, last);
    InsertionsAt(more, line, p + NewCount(h.body), EndShift(hd), Just(hd), p);
  }

  /** A line outside every hunk: the hunks `before` precede it, and it is the last
      of `gap`, which opens the stretch before the hunks `after`.  The predicted
      position is exact if and only if no hunk starts at or before the line or the
      last such hunk has lines on both sides. */
  lemma {:induction false} OutsideExact(before: seq<Hunk>, gap: seq<string>, after: seq<Hunk>)
    requires NoEmptyHunk(before) && NoEmptyHunk(after)
    requires gap != [] && (after == [] || gap <= after[0].skip)
    ensures var line, p := OldCount(Script(before, gap)), NewCount(Script(before, gap));
            var hs := HeadersFrom(before + after, 0, 0);
            line + OffsetAt(hs, line) == p <==> Reliable(LastStarted(hs, line, Nothing))
  {
    var line, p := OldCount(Script(before, gap)), NewCount(Script(before, gap));
    ScriptSpan(before, gap);
    OffsetOfPatch(before + after, line);
    var cum, last := PassHunks(before, after, line);
    var hs, rest := HeadersFrom(before + after, 0, 0), HeadersFrom(after, OldSpan(before), NewSpan(before));
    assert OffsetAt(hs, line) == OffsetFrom(rest, line, cum) && LastStarted(hs, line, Nothing) == LastStarted(rest, line, last);
    GapPrediction(gap, after, OldSpan(before), NewSpan(before), cum, last);
  }

  /** Lines of a hunk body that only one side has. */
  function Additions(edits: seq<Edit>): nat {
    if edits == [] then 0 else (if edits[0].Add? then 1 else 0) + Additions(edits[1..])
  }

  function Deletions(edits: seq<Edit>): nat {
    if edits == [] then 0 else (if edits[0].Del? then 1 else 0) + Deletions(edits[1..])
  }

  lemma {:induction false} CountDifference(edits: seq<Edit>)
    ensures NewCount(edits) - OldCount(edits) == Additions(edits) - Deletions(edits)
  {
    if edits != [] { CountDifference(edits[1..]); }
  }

  /** A line kept inside a hunk: the prediction misses its position by the
      additions minus the deletions that follow it in the hunk, if and only if the
      hunk before (if any) has lines on both sides. */
  lemma {:induction false} InsideError(before: seq<Hunk>, h: Hunk, j: nat, after: seq<Hunk>)
    requires NoEmptyHunk(before)
    requires j < |h.body| && h.body[j].Keep?
    ensures var here := Script(before, h.skip) + h.body[..j + 1];
            var line, p := OldCount(here), NewCount(here);
            var hs := HeadersFrom(before + [h] + after, 0, 0);
            var later := h.body[j + 1..];
            |hs| == |before| + 1 + |after| &&
            (line + OffsetAt(hs, line) == p + Additions(later) - Deletions(later)
             <==> (before == [] || TwoSided(hs[|before| - 1])))
  {
    var upTo, later := h.body[..j + 1], h.body[j + 1..];
    var here := Script(before, h.skip) + upTo;
    var line := OldCount(here);
    assert before + [h] + after == before + ([h] + after);
    HeadersLength(before + ([h] + after), 0, 0);
    TextAppend(Script(before, h.skip), upTo);
    ScriptSpan(before, h.skip);
    assert upTo == h.body[..j] + [Keep(h.body[j].text)];
    LastKept(h.body[..j], h.body[j].text);
    assert h.body == upTo + later;
    TextAppend(upTo, later);
    CountDifference(later);
    OffsetOfPatch(before + [h] + after, line);
    var cum, last := PassHunks(before, [h] + after, line);
  }

  /** The part of its hunk that follows index i of the script; nothing if i lies
      outside every hunk. */
  function LaterInHunk(hunks: seq<Hunk>, i: nat): seq<Edit> {
    if hunks == [] || i < |hunks[0].skip| then []
    else
      var j := i - |hunks[0].skip|;
      if j < |hunks[0].body| then hunks[0].body[j + 1..] else LaterInHunk(hunks[1..], j - |hunks[0].body|)
  }

  ghost predicate AllTwoSided(hunks: seq<Hunk>) {
    forall h :: h in hunks ==> OldCount(h.body) > 0 && NewCount(h.body) > 0
  }

  lemma {:induction false} HeadersTwoSided(hunks: seq<Hunk>, o: nat, n: nat)
    requires AllTwoSided(hunks)
    ensures forall h :: h in HeadersFrom(hunks, o, n) ==> TwoSided(h)
  {
    if hunks != [] {
      var o', n' := o + |hunks[0].skip|, n + |hunks[0].skip|;
      HeadersTwoSided(hunks[1..], o' + OldCount(hunks[0].body), n' + NewCount(hunks[0].body));
    }
  }

  lemma {:induction false} LastStartedReliable(hs: seq<Header>, line: int, prev: Last)
    requires Reliable(prev) && forall h :: h in hs ==> TwoSided(h)
    ensures Reliable(LastStarted(hs, line, prev))
  {
    if hs != [] && line >= hs[0].oldStart {
      LastStartedReliable(hs[1..], line, Just(hs[0]));
    }
  }

  /** For a patch whose hunks all have lines on both sides, every line that survives
      is predicted up to what its own hunk adds and deletes below it, hence exactly
      when it lies outside the hunks.  `i` is the line's place in the edit script;
      by `SurvivorPosition` the two lengths are its old and new line numbers. */
  lemma {:induction false} SurvivorPrediction(hunks: seq<Hunk>, tail: seq<string>, i: nat)
    requires AllTwoSided(hunks)
    requires i < |Script(hunks, tail)| && Script(hunks, tail)[i].Keep?
    ensures var upTo, later := Script(hunks, tail)[..i + 1], LaterInHunk(hunks, i);
            OldCount(upTo) + OffsetAt(HeadersFrom(hunks, 0, 0), OldCount(upTo))
            == NewCount(upTo) + Additions(later) - Deletions(later)
  {
    assert [] + hunks == hunks;
    assert Script([], []) == [];
    SurvivorFrom([], hunks, tail, i);
  }

  /** Old line `line`, at new position p and followed in its hunk by `later`, is
      predicted up to the changes in `later`. */
  ghost predicate Predicted(hunks: seq<Hunk>, line: nat, p: nat, later: seq<Edit>) {
    line + OffsetAt(HeadersFrom(hunks, 0, 0), line) == p + Additions(later) - Deletions(later)
  }

  /** What `SurvivorPrediction` says when the hunks `before` precede the script. */
  ghost predicate PredictedFrom(before: seq<Hunk>, rest: seq<Hunk>, tail: seq<string>, i: nat)
    requires i < |Script(rest, tail)|
  {
    var upTo := Script(rest, tail)[..i + 1];
    Predicted(before + rest, OldSpan(before) + OldCount(upTo), NewSpan(before) + NewCount(upTo), LaterInHunk(rest, i))
  }

  /** Counts up to a place beyond the first hunk. */
  lemma {:induction false} BeyondHunk(h: Hunk, more: seq<Hunk>, tail: seq<string>, i: nat)
    requires 0 <= i - |h.skip| - |h.body| < |Script(more, tail)|
    ensures var k := i - |h.skip| - |h.body|;
            var script, upTo := Script([h] + more, tail), Script(more, tail)[..k + 1];
            i < |script| && script[i] == Script(more, tail)[k] && LaterInHunk([h] + more, i) == LaterInHunk(more, k) &&
            OldCount(script[..i + 1]) == |h.skip| + OldCount(h.body) + OldCount(upTo) &&
            NewCount(script[..i + 1]) == |h.skip| + NewCount(h.body) + NewCount(upTo)
  {
    var k := i - |h.skip| - |h.body|;
    var first, rest := KeepAll(h.skip) + h.body, Script(more, tail);
    assert ([h] + more)[1..] == more;
    assert Script([h] + more, tail) == first + rest;
    assert (first + rest)[..i + 1] == first + rest[..k + 1];
    KeepAllText(h.skip);
    TextAppend(KeepAll(h.skip), h.body);
    TextAppend(first, rest[..k + 1]);
  }

  lemma {:induction false} SurvivorFrom(before: seq<Hunk>, rest: seq<Hunk>, tail: seq<string>, i: nat)
    requires AllTwoSided(before + rest)
    requires i < |Script(rest, tail)| && Script(rest, tail)[i].Keep?
    ensures PredictedFrom(before, rest, tail, i)
    decreases |rest|, 1
  {
    if rest == [] || i < |rest[0].skip| {
      SurvivorInGap(before, rest, tail, i);
    } else {
      assert rest == [rest[0]] + rest[1..];
      SurvivorPastSkip(before, rest[0], rest[1..], tail, i);
    }
  }

  lemma {:induction false} SurvivorPastSkip(before: seq<Hunk>, h: Hunk, more: seq<Hunk>, tail: seq<string>, i: nat)
    requires AllTwoSided(before + ([h] + more))
    requires |h.skip| <= i < |Script([h] + more, tail)| && Script([h] + more, tail)[i].Keep?
    ensures PredictedFrom(before, [h] + more, tail, i)
    decreases |more| + 1, 0
  {
    assert before + [h] + more == before + ([h] + more);
    if i < |h.skip| + |h.body| {
      InFirstHunk(h, more, tail, i);
      SurvivorInHunk(before, h, more, tail, i);
    } else {
      var k := i - |h.skip| - |h.body|;
      ScriptLength(h, more, tail);
      BeyondHunk(h, more, tail, i);
      SurvivorFrom(before + [h], more, tail, k);
      PassHunk(before, h, more, tail, i);
    }
  }

  lemma {:induction false} ScriptLength(h: Hunk, more: seq<Hunk>, tail: seq<string>)
    ensures |Script([h] + more, tail)| == |h.skip| + |h.body| + |Script(more, tail)|
  {
    assert ([h] + more)[1..] == more;
  }

  lemma {:induction false} PassHunk(before: seq<Hunk>, h: Hunk, more: seq<Hunk>, tail: seq<string>, i: nat)
    requires var k := i - |h.skip| - |h.body|;
             0 <= k < |Script(more, tail)| && PredictedFrom(before + [h], more, tail, k)
    ensures i < |Script([h] + more, tail)|
    ensures PredictedFrom(before, [h] + more, tail, i)
  {
    Assoc(before, [h], more);
    BeyondHunk(h, more, tail, i);
    SpanAppend(before, h);
  }

  lemma {:induction false} SurvivorInGap(before: seq<Hunk>, rest: seq<Hunk>, tail: seq<string>, i: nat)
    requires AllTwoSided(before + rest)
    requires i < |Script(rest, tail)| && (rest == [] || i < |rest[0].skip|)
    ensures PredictedFrom(before, rest, tail, i)
  {
    var upTo := Script(rest, tail)[..i + 1];
    var stretch := if rest == [] then tail else rest[0].skip;
    var gap := stretch[..i + 1];
    assert upTo == KeepAll(gap);
    KeepAllText(gap);
    assert OldCount(upTo) == |gap| == NewCount(upTo);
    OutsideTwoSided(before, gap, rest);
  }

  /** Counts up to a place in the body of the first hunk. */
  lemma {:induction false} InFirstHunk(h: Hunk, more: seq<Hunk>, tail: seq<string>, i: nat)
    requires |h.skip| <= i < |h.skip| + |h.body|
    ensures var script, j := Script([h] + more, tail), i - |h.skip|;
            i < |script| && script[i] == h.body[j] && LaterInHunk([h] + more, i) == h.body[j + 1..] &&
            OldCount(script[..i + 1]) == |h.skip| + OldCount(h.body[..j + 1]) &&
            NewCount(script[..i + 1]) == |h.skip| + NewCount(h.body[..j + 1])
  {
    var j := i - |h.skip|;
    assert ([h] + more)[1..] == more;
    assert Script([h] + more, tail)[..i + 1] == KeepAll(h.skip) + h.body[..j + 1];
    SkipCounts(h, j);
  }

  lemma {:induction false} SurvivorInHunk(before: seq<Hunk>, h: Hunk, more: seq<Hunk>, tail: seq<string>, i: nat)
    requires AllTwoSided(before + [h] + more)
    requires |h.skip| <= i < |h.skip| + |h.body| && h.body[i - |h.skip|].Keep?
    ensures i < |Script([h] + more, tail)| && PredictedFrom(before, [h] + more, tail, i)
  {
    var j := i - |h.skip|;
    Assoc(before, [h], more);
    InFirstHunk(h, more, tail, i);
    InsideTwoSided(before, h, j, more);
    assert OldSpan(before) + |h.skip| + OldCount(h.body[..j + 1]) == OldSpan(before) + (|h.skip| + OldCount(h.body[..j + 1]));
  }

  lemma {:induction false} SkipCounts(h: Hunk, j: nat)
    requires j < |h.body|
    ensures OldCount(KeepAll(h.skip) + h.body[..j + 1]) == |h.skip| + OldCount(h.body[..j + 1])
    ensures NewCount(KeepAll(h.skip) + h.body[..j + 1]) == |h.skip| + NewCount(h.body[..j + 1])
  {
    KeepAllText(h.skip);
    TextAppend(KeepAll(h.skip), h.body[..j + 1]);
  }

  lemma {:induction false} OutsideTwoSided(before: seq<Hunk>, gap: seq<string>, after: seq<Hunk>)
    requires AllTwoSided(before + after)
    requires gap != [] && (after == [] || gap <= after[0].skip)
    ensures var line := OldSpan(before) + |gap|;
            line + OffsetAt(HeadersFrom(before + after, 0, 0), line) == NewSpan(before) + |gap|
  {
    assert forall h :: h in before || h in after ==> h in before + after;
    ScriptSpan(before, gap);
    OutsideExact(before, gap, after);
    HeadersTwoSided(before + after, 0, 0);
    LastStartedReliable(HeadersFrom(before + after, 0, 0), OldSpan(before) + |gap|, Nothing);
  }

  lemma {:induction false} InsideTwoSided(before: seq<Hunk>, h: Hunk, j: nat, after: seq<Hunk>)
    requires AllTwoSided(before + [h] + after)
    requires j < |h.body| && h.body[j].Keep?
    ensures var line := OldSpan(before) + |h.skip| + OldCount(h.body[..j + 1]);
            var p := NewSpan(before) + |h.skip| + NewCount(h.body[..j + 1]);
            Predicted(before + [h] + after, line, p, h.body[j + 1..])
  {
    assert forall x :: x in before ==> x in before + [h] + after;
    TextAppend(Script(before, h.skip), h.body[..j + 1]);
    ScriptSpan(before, h.skip);
    InsideError(before, h, j, after);
    HeadersTwoSided(before + [h] + after, 0, 0);
    HeadersLength(before + [h] + after, 0, 0);
  }

  lemma {:induction false} SpanAppend(before: seq<Hunk>, h: Hunk)
    ensures OldSpan(before + [h]) == OldSpan(before) + |h.skip| + OldCount(h.body)
    ensures NewSpan(before + [h]) == NewSpan(before) + |h.skip| + NewCount(h.body)
  {
    if before == [] {
      assert before + [h] == [h];
    } else {
      assert (before + [h])[1..] == before[1..] + [h];
      SpanAppend(before[1..], h);
    }
  }

  // ----- With context lines -----

  /** Printed with at least one line of context: a body begins with a kept line if any line
      precedes it in the file, and ends with one if any line follows. */
  ghost predicate ShowsContext(hunks: seq<Hunk>, tail: seq<string>) {
    forall i :: 0 <= i < |hunks| ==>
      var body := hunks[i].body;
      (i > 0 || hunks[i].skip != [] ==> body != [] && body[0].Keep?) &&
      (i < |hunks| - 1 || tail != [] ==> body != [] && body[|body| - 1].Keep?)
  }

  ghost predicate KeepsALine(edits: seq<Edit>) { exists j :: 0 <= j < |edits| && edits[j].Keep? }

  lemma {:induction false} KeptCounts(edits: seq<Edit>)
    requires KeepsALine(edits)
    ensures OldCount(edits) > 0 && NewCount(edits) > 0
  {
    var j :| 0 <= j < |edits| && edits[j].Keep?;
    SurvivorPosition(edits, j);
  }

  /** A hunk without a kept line is the whole file. */
  lemma {:induction false} NoContextIsAll(hunks: seq<Hunk>, tail: seq<string>, i: nat)
    requires ShowsContext(hunks, tail) && i < |hunks| && !KeepsALine(hunks[i].body)
    ensures hunks == [hunks[i]] && Script(hunks, tail) == hunks[i].body
  {
    var body := hunks[i].body;
    assert i == 0 && hunks[0].skip == [] && |hunks| == 1 && tail == [];
    var none: seq<Hunk> := [];
    assert hunks[1..] == none && Script(none, tail) == [] && KeepAll(hunks[0].skip) == [];
    assert [] + body + [] == body;
  }

  /** So if any line of the file survives, all hunks have lines on both sides. */
  lemma {:induction false} ContextIsTwoSided(hunks: seq<Hunk>, tail: seq<string>, i: nat)
    requires ShowsContext(hunks, tail)
    requires i < |Script(hunks, tail)| && Script(hunks, tail)[i].Keep?
    ensures AllTwoSided(hunks)
  {
    forall h | h in hunks ensures OldCount(h.body) > 0 && NewCount(h.body) > 0 {
      var k :| 0 <= k < |hunks| && hunks[k] == h;
      if KeepsALine(h.body) {
        KeptCounts(h.body);
      } else {
        NoContextIsAll(hunks, tail, k);
        assert false;
      }
    }
  }

  /** A patch printed with context predicts every surviving line up to the changes below it
      in its own hunk, without a further condition. */
  lemma {:induction false} ContextPredicts(hunks: seq<Hunk>, tail: seq<string>, i: nat)
    requires ShowsContext(hunks, tail)
    requires i < |Script(hunks, tail)| && Script(hunks, tail)[i].Keep?
    ensures var upTo, later := Script(hunks, tail)[..i + 1], LaterInHunk(hunks, i);
            OldCount(upTo) + OffsetAt(HeadersFrom(hunks, 0, 0), OldCount(upTo))
            == NewCount(upTo) + Additions(later) - Deletions(later)
  {
    ContextIsTwoSided(hunks, tail, i);
    SurvivorPrediction(hunks, tail, i);
  }

  // ----- Where the prediction fails -----

  /** A hunk without context that inserts one line after the first. */
  const INSERTION := Hunk(["a"], [Add("b")], "")

  lemma {:induction false} InsertionHeader(after: seq<Hunk>)
    ensures HeadersFrom([INSERTION] + after, 0, 0) == [Header(1, 0, 2, 1)] + HeadersFrom(after, 1, 2)
    ensures OldSpan([INSERTION]) == 1 && NewSpan([INSERTION]) == 2
  {
    HeadersCons(INSERTION, after, 0, 0);
    assert INSERTION.body[1..] == [];
    assert OldCount(INSERTION.body) == 0 && NewCount(INSERTION.body) == 1;
    assert [INSERTION][1..] == [];
  }

  /** The second of two lines moves to line 3 when one is inserted between them; it is
      predicted on line 4. */
  lemma {:induction false} InsertionMisleads()
    ensures OldCount(Script([INSERTION], ["c"])) == 2 && NewCount(Script([INSERTION], ["c"])) == 3
    ensures 2 + OffsetAt(HeadersFrom([INSERTION], 0, 0), 2) == 4
  {
    var none: seq<Hunk> := [];
    InsertionHeader(none);
    assert [INSERTION] + none == [INSERTION];
    ScriptSpan([INSERTION], ["c"]);
    OffsetOfPatch([INSERTION], 2);
    var hs := HeadersFrom([INSERTION], 0, 0);
    assert hs == [Header(1, 0, 2, 1)] && hs[1..] == [];
  }

  /** A second hunk that begins with the line and adds one more below it. */
  const NEXT := Hunk([], [Keep("c"), Add("d")], "")

  lemma {:induction false} NextCounts()
    ensures NEXT.body[..1] == [Keep("c")] && NEXT.body[1..] == [Add("d")]
    ensures OldCount(NEXT.body) == 1 && NewCount(NEXT.body) == 2
    ensures OldCount([Keep("c")]) == NewCount([Keep("c")]) == 1
    ensures Additions([Add("d")]) == 1 && Deletions([Add("d")]) == 0
  {
    var one, kept := [Add("d")], [Keep("c")];
    assert one[1..] == [] && kept[1..] == [];
    assert OldText(one) == [] && NewText(one) == ["d"];
  }

  lemma {:induction false} NextHeaders()
    ensures HeadersFrom([INSERTION, NEXT], 0, 0) == [Header(1, 0, 2, 1), Header(2, 1, 3, 2)]
  {
    var none: seq<Hunk> := [];
    assert [NEXT] + none == [NEXT] && [INSERTION] + [NEXT] == [INSERTION, NEXT];
    NextCounts();
    InsertionHeader([NEXT]);
    HeadersCons(NEXT, none, 1, 2);
  }

  lemma {:induction false} NextLine()
    ensures var upTo := Script([INSERTION], []) + NEXT.body[..1];
            OldCount(upTo) == 2 && NewCount(upTo) == 3
  {
    var none: seq<Hunk> := [];
    NextCounts();
    InsertionHeader(none);
    ScriptSpan([INSERTION], []);
    TextAppend(Script([INSERTION], []), [Keep("c")]);
  }

  lemma {:induction false} NextOffset()
    ensures OffsetFrom([Header(1, 0, 2, 1), Header(2, 1, 3, 2)], 2, 0) == 3
  {
    var hs := [Header(1, 0, 2, 1), Header(2, 1, 3, 2)];
    assert hs[1..] == [Header(2, 1, 3, 2)];
  }

  /** There the error is not what the hunk adds below the line either. */
  lemma {:induction false} InsertionMisleadsNextHunk()
    ensures var upTo := Script([INSERTION], []) + NEXT.body[..1];
            OldCount(upTo) == 2 && NewCount(upTo) == 3
    ensures 2 + OffsetAt(HeadersFrom([INSERTION, NEXT], 0, 0), 2) == 5
    ensures 5 != 3 + Additions(NEXT.body[1..]) - Deletions(NEXT.body[1..])
  {
    NextLine();
    NextCounts();
    OffsetOfPatch([INSERTION, NEXT], 2);
    NextHeaders();
    NextOffset();
  }
}
