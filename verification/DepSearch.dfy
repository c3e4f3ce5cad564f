/** The dep_search evaluation of one instance: which inserted comments count for
    which dependency. */
module DepSearch {
  import opened Options
  import opened Sequences
  import opened Text
  import opened UnifiedDiff
  import opened PatchParser
  import opened LineOffset

  // ----- Comments -----

  predicate IsTrailingMark(c: char) { c in ".,;:!" }

  /** The comment text: stripped, lower-cased, without `#` and trailing marks. */
  function CommentText(line: string): Option<string> {
    var stripped := Lower(Strip(line));
    if "#" <= stripped then Some(TrimRight(Strip(stripped[1..]), IsTrailingMark)) else None
  }

  predicate CheckCommentContent(line: string, target: string) {
    match CommentText(line)
    case None => false
    case Some(content) =>
      var t := Lower(target);
      (Contains(content, t)
       && (Contains(content, "called by") || Contains(content, "used by") || Contains(content, "dependency")))
      || content in [Sentence("this function/class", t), Sentence("this function", t), Sentence("this class", t)]
  }

  function Sentence(subject: string, t: string): string {
    subject + " is called by the " + t + " function"
  }

  lemma {:induction false} ContainsMiddle(a: string, t: string, b: string)
    ensures Contains(a + t + b, t)
  {
    assert (a + t + b)[|a|..|a| + |t|] == t;
    ContainsAt(a + t + b, t, |a|);
  }

  lemma {:induction false} TemplateMentions(subject: string, t: string)
    ensures Contains(Sentence(subject, t), t)
    ensures Contains(Sentence(subject, t), "called by")
  {
    var s := Sentence(subject, t);
    assert s == (subject + " is called by the ") + t + " function";
    ContainsMiddle(subject + " is called by the ", t, " function");
    assert s == (subject + " is ") + "called by" + (" the " + t + " function");
    ContainsMiddle(subject + " is ", "called by", " the " + t + " function");
  }

  /** The list of acceptable sentences adds nothing: a comment is accepted if and only
      if it names the target and one of the three phrases. */
  lemma {:induction false} AcceptedComments(line: string, target: string)
    ensures CheckCommentContent(line, target) <==>
            var c := CommentText(line);
            c.Some? && Contains(c.value, Lower(target)) &&
            (Contains(c.value, "called by") || Contains(c.value, "used by") || Contains(c.value, "dependency"))
  {
    var t := Lower(target);
    TemplateMentions("this function/class", t);
    TemplateMentions("this function", t);
    TemplateMentions("this class", t);
  }

  predicate IsMarks(s: string) {
    forall i :: 0 <= i < |s| ==> s[i] == '.' || s[i] == ',' || s[i] == ';' || s[i] == ':' || s[i] == '!'
  }

  /** The text of a comment: it begins without white space and does not end with a mark. */
  predicate IsCommentText(text: string) {
    text != "" && !IsSpace(text[0]) && !IsMarks(text[|text| - 1..])
  }

  lemma {:induction false} LowerKeepsKind(c: char)
    ensures IsSpace(LowerChar(c)) <==> IsSpace(c)
    ensures IsTrailingMark(LowerChar(c)) <==> c == '.' || c == ',' || c == ';' || c == ':' || c == '!'
    ensures LowerChar(c) == '#' <==> c == '#'
  {
  }

  lemma {:induction false} LowerSum(a: string, b: string)
    ensures Lower(a + b) == Lower(a) + Lower(b)
  {
  }

  /** Only what begins with `#` has a comment text. */
  lemma {:induction false} CommentsBeginWithHash(line: string)
    ensures CommentText(line).Some? <==> Strip(line) != "" && Strip(line)[0] == '#'
  {
    var s := Strip(line);
    StartsWithHash(Lower(s));
    if s != "" {
      LowerKeepsKind(s[0]);
      assert Lower(s)[0] == LowerChar(s[0]);
    }
  }

  /** The text is what stands between the `#` and the marks at the end, in lower case. */
  lemma {:induction false} CommentTextOf(a: string, b: string, text: string, marks: string, c: string)
    requires IsBlank(a) && IsBlank(b) && IsBlank(c) && IsMarks(marks) && IsCommentText(text)
    requires marks == "" ==> !IsSpace(text[|text| - 1])
    ensures CommentText(a + ("#" + (b + (text + marks))) + c) == Some(Lower(text))
  {
    var rest := b + (text + marks);
    var whole := "#" + rest;
    if marks != "" { assert !IsSpace(marks[|marks| - 1]); }
    assert whole[|whole| - 1] == (text + marks)[|text + marks| - 1];
    StripAround(a, whole, c);
    LowerSum("#", rest);
    assert Lower("#") == "#" && Lower(whole)[1..] == Lower(rest);
    TextInside(b, text, marks);
  }

  lemma {:induction false} TextInside(b: string, text: string, marks: string)
    requires IsBlank(b) && IsMarks(marks) && IsCommentText(text)
    requires marks == "" ==> !IsSpace(text[|text| - 1])
    ensures TrimRight(Strip(Lower(b + (text + marks))), IsTrailingMark) == Lower(text)
  {
    var low, tail := Lower(text), Lower(marks);
    LowerSum(b, text + marks);
    LowerSum(text, marks);
    forall i | 0 <= i < |b| ensures IsSpace(Lower(b)[i]) { LowerKeepsKind(b[i]); }
    forall i | 0 <= i < |marks| ensures IsTrailingMark(tail[i]) && !IsSpace(tail[i]) { LowerKeepsKind(marks[i]); }
    LowerKeepsKind(text[0]);
    LowerKeepsKind(text[|text| - 1]);
    assert text[|text| - 1..] == [text[|text| - 1]];
    assert Lower(b) + (low + tail) + "" == Lower(b) + (low + tail);
    StripAround(Lower(b), low + tail, "");
    TrimRightAll(low, tail, IsTrailingMark);
  }

  /** A comment line is accepted exactly if its text, in whatever case and with whatever
      marks at its end, names the target and one of the three phrases; no other line is. */
  lemma {:induction false} AcceptedLine(a: string, b: string, text: string, marks: string, c: string, target: string)
    requires IsBlank(a) && IsBlank(b) && IsBlank(c) && IsMarks(marks) && IsCommentText(text)
    requires marks == "" ==> !IsSpace(text[|text| - 1])
    ensures CheckCommentContent(a + ("#" + (b + (text + marks))) + c, target) <==>
            Contains(Lower(text), Lower(target)) &&
            (Contains(Lower(text), "called by") || Contains(Lower(text), "used by") || Contains(Lower(text), "dependency"))
  {
    CommentTextOf(a, b, text, marks, c);
    AcceptedComments(a + ("#" + (b + (text + marks))) + c, target);
  }

  predicate IsComment(line: string) { Strip(line) == "" || "#" <= Strip(line) }

  method IsLinesCommentOnly(lines: seq<string>) returns (ok: bool)
    ensures ok <==> forall l :: l in lines ==> IsComment(l)
  {
    for i := 0 to |lines|
      invariant forall l :: l in lines[..i] ==> IsComment(l)
    {
      var stripped := Strip(lines[i]);
      assert lines[..i + 1] == lines[..i] + [lines[i]];
      if stripped != "" && !("#" <= stripped) {
        assert lines[i] in lines;
        return false;
      }
    }
    assert lines[..|lines|] == lines;
    return true;
  }

  lemma {:induction false} AcceptedIsComment(line: string, target: string)
    requires CheckCommentContent(line, target)
    ensures IsComment(line)
  {
    var s := Strip(line);
    assert Lower(s)[0] == LowerChar(s[0]);
  }

  // ----- Dependencies -----

  /** `decoratorLine` is absent when the record has no such key. */
  datatype Dep = Dep(name: string, file: string, lineStart: nat, decoratorLine: Option<nat>)

  /** Dataset lines count from 0. */
  function ExpectedLine(d: Dep): nat {
    (if d.decoratorLine.Some? then d.decoratorLine.value else d.lineStart) + 1
  }

  datatype Entry = Entry(file: string, line: nat, name: string)

  function EntryOf(d: Dep): Entry { Entry(d.file, ExpectedLine(d), d.name) }

  /** Assignment to an insertion-ordered dict keyed by (file, line): a later dependency
      with the same key takes the place of the earlier one. */
  function Put(entries: seq<Entry>, e: Entry): seq<Entry> {
    if entries == [] then [e]
    else if entries[0].file == e.file && entries[0].line == e.line then [e] + entries[1..]
    else [entries[0]] + Put(entries[1..], e)
  }

  function PutAll(entries: seq<Entry>, deps: seq<Dep>): seq<Entry>
    decreases |deps|
  {
    if deps == [] then entries
    else PutAll(Put(entries, EntryOf(deps[0])), deps[1..])
  }

  // ----- The dict of dependencies -----

  type Key = (string, nat)

  function KeyOf(e: Entry): Key { (e.file, e.line) }

  function Keys(entries: seq<Entry>): seq<Key> { seq(|entries|, i requires 0 <= i < |entries| => KeyOf(entries[i])) }

  function DepKeys(deps: seq<Dep>): seq<Key> {
    seq(|deps|, i requires 0 <= i < |deps| => KeyOf(EntryOf(deps[i])))
  }

  /** The different keys in the order in which they first occur. */
  function FirstOccurrences(keys: seq<Key>): seq<Key> {
    if keys == [] then []
    else
      var before, last := FirstOccurrences(keys[..|keys| - 1]), keys[|keys| - 1];
      if last in before then before else before + [last]
  }

  /** The entry of a dependency whose key no later one has. */
  ghost predicate IsLast(e: Entry, deps: seq<Dep>) {
    exists p :: 0 <= p < |deps| && EntryOf(deps[p]) == e && forall q :: p < q < |deps| ==> KeyOf(EntryOf(deps[q])) != KeyOf(e)
  }

  /** One entry for each key, in the order of first occurrence, with the last dependency. */
  ghost predicate IsDictOf(entries: seq<Entry>, deps: seq<Dep>) {
    Keys(entries) == FirstOccurrences(DepKeys(deps)) && forall e :: e in entries ==> IsLast(e, deps)
  }

  ghost predicate DistinctKeys(keys: seq<Key>) { forall i, j :: 0 <= i < j < |keys| ==> keys[i] != keys[j] }

  lemma {:induction false} FirstOccurrencesMembers(keys: seq<Key>)
    ensures DistinctKeys(FirstOccurrences(keys))
    ensures forall k :: k in FirstOccurrences(keys) <==> k in keys
  {
    if keys != [] {
      var init, last := keys[..|keys| - 1], keys[|keys| - 1];
      FirstOccurrencesMembers(init);
      assert keys == init + [last];
    }
  }

  /** A place in `keys` of the first key with no occurrence of the second up to it. */
  ghost predicate Before(keys: seq<Key>, a: Key, b: Key) {
    exists p :: 0 <= p < |keys| && keys[p] == a && b !in keys[..p + 1]
  }

  lemma {:induction false} BeforeInPrefix(init: seq<Key>, last: Key, a: Key, b: Key)
    requires Before(init, a, b) || (a in init && b !in init)
    ensures Before(init + [last], a, b)
  {
    var p :| 0 <= p < |init| && init[p] == a && b !in init[..p + 1];
    assert (init + [last])[..p + 1] == init[..p + 1] && (init + [last])[p] == a;
  }

  /** Each key once, and in order of the places where they first occur. */
  lemma {:induction false} FirstOccurrencesAre(keys: seq<Key>)
    ensures DistinctKeys(FirstOccurrences(keys))
    ensures forall k :: k in FirstOccurrences(keys) <==> k in keys
    ensures forall i, j :: 0 <= i < j < |FirstOccurrences(keys)| ==>
              Before(keys, FirstOccurrences(keys)[i], FirstOccurrences(keys)[j])
  {
    FirstOccurrencesMembers(keys);
    if keys != [] {
      var init, last := keys[..|keys| - 1], keys[|keys| - 1];
      FirstOccurrencesMembers(init);
      FirstOccurrencesAre(init);
      assert keys == init + [last];
      var before, all := FirstOccurrences(init), FirstOccurrences(keys);
      forall i, j | 0 <= i < j < |all| ensures Before(keys, all[i], all[j]) {
        assert all[i] == before[i] && before[i] in init;
        BeforeInPrefix(init, last, all[i], all[j]);
      }
    }
  }

  lemma {:induction false} KeysCons(e: Entry, rest: seq<Entry>)
    ensures Keys([e] + rest) == [KeyOf(e)] + Keys(rest)
  {
  }

  lemma {:induction false} PutKeys(entries: seq<Entry>, e: Entry)
    ensures Keys(Put(entries, e)) == if KeyOf(e) in Keys(entries) then Keys(entries) else Keys(entries) + [KeyOf(e)]
  {
    if entries == [] {
      KeysCons(e, []);
    } else {
      var first, rest := entries[0], entries[1..];
      assert entries == [first] + rest;
      KeysCons(first, rest);
      if KeyOf(first) == KeyOf(e) {
        KeysCons(e, rest);
      } else {
        PutKeys(rest, e);
        KeysCons(first, Put(rest, e));
        assert KeyOf(e) in [KeyOf(first)] + Keys(rest) <==> KeyOf(e) in Keys(rest);
        Assoc([KeyOf(first)], Keys(rest), [KeyOf(e)]);
      }
    }
  }

  lemma {:induction false} PutEntries(entries: seq<Entry>, e: Entry, x: Entry)
    requires DistinctKeys(Keys(entries)) && x in Put(entries, e)
    ensures x == e || (x in entries && KeyOf(x) != KeyOf(e))
  {
    if entries != [] {
      var rest := entries[1..];
      assert Keys(rest) == Keys(entries)[1..];
      if KeyOf(entries[0]) == KeyOf(e) {
        if x != e {
          var i :| 0 <= i < |rest| && rest[i] == x;
          assert Keys(entries)[i + 1] == KeyOf(x) && Keys(entries)[0] == KeyOf(e);
        }
      } else if x != entries[0] {
        PutEntries(rest, e, x);
      }
    }
  }

  lemma {:induction false} PutAllNext(entries: seq<Entry>, deps: seq<Dep>, d: Dep)
    ensures PutAll(entries, deps + [d]) == Put(PutAll(entries, deps), EntryOf(d))
    decreases |deps|
  {
    if deps == [] {
      assert [] + [d] == [d] && [d][1..] == [];
    } else {
      assert (deps + [d])[1..] == deps[1..] + [d];
      PutAllNext(Put(entries, EntryOf(deps[0])), deps[1..], d);
    }
  }

  lemma {:induction false} StillLast(e: Entry, deps: seq<Dep>, d: Dep)
    requires IsLast(e, deps) && KeyOf(EntryOf(d)) != KeyOf(e)
    ensures IsLast(e, deps + [d])
  {
    var p :| 0 <= p < |deps| && EntryOf(deps[p]) == e && forall q :: p < q < |deps| ==> KeyOf(EntryOf(deps[q])) != KeyOf(e);
    assert EntryOf((deps + [d])[p]) == e;
  }

  /** One more dependency keeps the entries those of the last dependencies. */
  lemma {:induction false} PutKeepsLast(entries: seq<Entry>, deps: seq<Dep>, d: Dep)
    requires DistinctKeys(Keys(entries)) && forall e :: e in entries ==> IsLast(e, deps)
    ensures forall x :: x in Put(entries, EntryOf(d)) ==> IsLast(x, deps + [d])
  {
    forall x | x in Put(entries, EntryOf(d)) ensures IsLast(x, deps + [d]) {
      PutEntries(entries, EntryOf(d), x);
      if x == EntryOf(d) {
        assert EntryOf((deps + [d])[|deps|]) == x;
      } else {
        StillLast(x, deps, d);
      }
    }
  }

  lemma {:induction false} NextKey(deps: seq<Dep>, d: Dep)
    ensures FirstOccurrences(DepKeys(deps + [d])) ==
            var before := FirstOccurrences(DepKeys(deps));
            if KeyOf(EntryOf(d)) in before then before else before + [KeyOf(EntryOf(d))]
  {
    var keys := DepKeys(deps + [d]);
    assert keys == DepKeys(deps) + [KeyOf(EntryOf(d))];
    assert keys[..|keys| - 1] == DepKeys(deps);
  }

  /** Building the dict: a repeated key keeps its place and takes the later dependency. */
  lemma {:induction false} DictOf(deps: seq<Dep>)
    ensures IsDictOf(PutAll([], deps), deps)
  {
    if deps != [] {
      var init, d := deps[..|deps| - 1], deps[|deps| - 1];
      assert deps == init + [d];
      DictOf(init);
      PutAllNext([], init, d);
      PutKeys(PutAll([], init), EntryOf(d));
      NextKey(init, d);
      FirstOccurrencesMembers(DepKeys(init));
      PutKeepsLast(PutAll([], init), init, d);
    }
  }

  // ----- Matching -----

  function Distance(a: int, b: int): int { if a < b then b - a else a - b }

  predicate Matches(e: Entry, f: ParsedFile, num: int) {
    e.file == f.filename && Distance(num, e.line + OffsetAt(f.hunks, e.line)) <= 5
  }

  /** The first entry of the dict within five lines of the comment. */
  function FirstMatch(entries: seq<Entry>, f: ParsedFile, num: int): Option<Entry> {
    if entries == [] then None
    else if Matches(entries[0], f, num) then Some(entries[0])
    else FirstMatch(entries[1..], f, num)
  }

  datatype Tally = Tally(found: set<string>, correct: nat, duplicates: nat, falsePositives: nat)

  function Count(entries: seq<Entry>, target: string, f: ParsedFile, a: AddedLine, t: Tally): Tally {
    if !CheckCommentContent(a.content, target) then t
    else match FirstMatch(entries, f, a.num)
      case None => t.(falsePositives := t.falsePositives + 1)
      case Some(e) =>
        if e.name in t.found then t.(duplicates := t.duplicates + 1)
        else t.(found := t.found + {e.name}, correct := t.correct + 1)
  }

  function CountFile(entries: seq<Entry>, target: string, f: ParsedFile, added: seq<AddedLine>, t: Tally): Tally
    decreases |added|
  {
    if added == [] then t
    else CountFile(entries, target, f, added[1..], Count(entries, target, f, added[0], t))
  }

  function CountAll(entries: seq<Entry>, target: string, files: seq<ParsedFile>, t: Tally): Tally
    decreases |files|
  {
    if files == [] then t
    else CountAll(entries, target, files[1..], CountFile(entries, target, files[0], files[0].addedLines, t))
  }

  const NO_TALLY := Tally({}, 0, 0, 0)

  function AllContent(files: seq<ParsedFile>): seq<string> {
    if files == [] then []
    else ContentsOf(files[0]) + AllContent(files[1..])
  }

  predicate AllComments(lines: seq<string>) { forall i :: 0 <= i < |lines| ==> IsComment(lines[i]) }

  /** The result record; `numDeps - truePositives` are the false negatives. */
  datatype Evaluation = Evaluation(numDeps: nat, truePositives: nat, falsePositives: nat, duplicates: nat,
                                   precision: real, recall: real, f1: real, fullSuccess: bool, commentsOnly: bool)

  function Ratio(a: nat, b: nat): real { if b > 0 then a as real / b as real else 0.0 }

  function F1(p: real, r: real): real
    requires p >= 0.0 && r >= 0.0
  {
    if p + r > 0.0 then 2.0 * p * r / (p + r) else 0.0
  }

  lemma {:induction false} RatioNonNegative(a: nat, b: nat)
    ensures Ratio(a, b) >= 0.0
  {
  }

  function Score(numDeps: nat, t: Tally, commentsOnly: bool): Evaluation {
    var tp := |t.found|;
    var p, r := Ratio(tp, tp + t.falsePositives + t.duplicates), Ratio(tp, numDeps);
    RatioNonNegative(tp, tp + t.falsePositives + t.duplicates);
    RatioNonNegative(tp, numDeps);
    Evaluation(numDeps, tp, t.falsePositives, t.duplicates, p, r, F1(p, r),
               tp == numDeps && t.falsePositives == 0 && t.duplicates == 0 && commentsOnly, commentsOnly)
  }

  function Evaluate(deps: seq<Dep>, target: string, patch: seq<string>): Evaluation {
    var files := Parse(patch);
    var entries := PutAll([], deps);
    var content := AllContent(files);
    Score(|deps|, CountAll(entries, target, files, NO_TALLY), AllComments(content))
  }

  method EvaluateInstance(deps: seq<Dep>, target: string, patch: seq<string>) returns (result: Evaluation)
    ensures patch == [] ==> result == Evaluation(|deps|, 0, 0, 0, 0.0, 0.0, 0.0, false, false)
    ensures patch != [] ==> result == Evaluate(deps, target, patch)
  {
    if patch == [] {
      return Evaluation(|deps|, 0, 0, 0, 0.0, 0.0, 0.0, false, false);
    }
    var files := ParsePatchWithDetails(patch);
    var allContent := CollectContent(files);
    var commentsOnly := IsLinesCommentOnly(allContent);
    var expectedDeps := BuildExpected(deps);
    var tally := CountComments(expectedDeps, target, files);
    result := Score(|deps|, tally, commentsOnly);
    assert commentsOnly == AllComments(allContent);
  }

  method CollectContent(files: seq<ParsedFile>) returns (allContent: seq<string>)
    ensures allContent == AllContent(files)
  {
    allContent := [];
    for i := 0 to |files|
      invariant allContent + AllContent(files[i..]) == AllContent(files)
    {
      assert files[i..][1..] == files[i + 1..];
      allContent := allContent + ContentsOf(files[i]);
    }
  }

  method BuildExpected(deps: seq<Dep>) returns (expectedDeps: seq<Entry>)
    ensures expectedDeps == PutAll([], deps) && IsDictOf(expectedDeps, deps)
  {
    DictOf(deps);
    expectedDeps := [];
    for i := 0 to |deps|
      invariant PutAll(expectedDeps, deps[i..]) == PutAll([], deps)
    {
      assert deps[i..][1..] == deps[i + 1..];
      expectedDeps := Put(expectedDeps, EntryOf(deps[i]));
    }
  }

  method CountComments(expectedDeps: seq<Entry>, target: string, files: seq<ParsedFile>) returns (tally: Tally)
    ensures tally == CountAll(expectedDeps, target, files, NO_TALLY)
  {
    tally := NO_TALLY;
    for i := 0 to |files|
      invariant CountAll(expectedDeps, target, files[i..], tally) == CountAll(expectedDeps, target, files, NO_TALLY)
    {
      assert files[i..][1..] == files[i + 1..];
      tally := CountFileComments(expectedDeps, target, files[i], tally);
    }
  }

  lemma {:induction false} CountFileNext(entries: seq<Entry>, target: string, f: ParsedFile, added: seq<AddedLine>, j: nat, t: Tally)
    requires j < |added|
    ensures CountFile(entries, target, f, added[j..], t) ==
            CountFile(entries, target, f, added[j + 1..], Count(entries, target, f, added[j], t))
  {
    assert added[j..][1..] == added[j + 1..];
  }

  /** One added line: what the branches of the loop body do to the tally. */
  lemma {:induction false} CountIs(entries: seq<Entry>, target: string, f: ParsedFile, a: AddedLine, t: Tally)
    ensures Count(entries, target, f, a, t) ==
            if !CheckCommentContent(a.content, target) then t
            else if FirstMatch(entries, f, a.num).None? then Tally(t.found, t.correct, t.duplicates, t.falsePositives + 1)
            else if FirstMatch(entries, f, a.num).value.name in t.found then Tally(t.found, t.correct, t.duplicates + 1, t.falsePositives)
            else Tally(t.found + {FirstMatch(entries, f, a.num).value.name}, t.correct + 1, t.duplicates, t.falsePositives)
  {
  }

  method CountFileComments(expectedDeps: seq<Entry>, target: string, f: ParsedFile, before: Tally) returns (tally: Tally)
    ensures tally == CountFile(expectedDeps, target, f, f.addedLines, before)
  {
    var foundDeps, correct, dups, fp := before.found, before.correct, before.duplicates, before.falsePositives;
    for j := 0 to |f.addedLines|
      invariant CountFile(expectedDeps, target, f, f.addedLines[j..], Tally(foundDeps, correct, dups, fp))
                == CountFile(expectedDeps, target, f, f.addedLines, before)
    {
      var a := f.addedLines[j];
      ghost var t := Tally(foundDeps, correct, dups, fp);
      CountFileNext(expectedDeps, target, f, f.addedLines, j, t);
      if CheckCommentContent(a.content, target) {
        var matched := MatchComment(expectedDeps, f, a.num);
        if matched.None? {
          fp := fp + 1;
        } else if matched.value.name in foundDeps {
          dups := dups + 1;
        } else {
          foundDeps := foundDeps + {matched.value.name};
          correct := correct + 1;
        }
      }
      CountIs(expectedDeps, target, f, a, t);
    }
    tally := Tally(foundDeps, correct, dups, fp);
  }

  /** The inner loop over the dependency dict. */
  method MatchComment(entries: seq<Entry>, f: ParsedFile, num: int) returns (matched: Option<Entry>)
    ensures matched == FirstMatch(entries, f, num)
  {
    for i := 0 to |entries|
      invariant FirstMatch(entries[i..], f, num) == FirstMatch(entries, f, num)
    {
      assert entries[i..][1..] == entries[i + 1..];
      var e := entries[i];
      if e.file == f.filename {
        var offset := ComputeLineOffset(f.hunks, e.line);
        if Distance(num, e.line + offset) <= 5 {
          return Some(e);
        }
      }
    }
    return None;
  }

  // ----- Score arithmetic -----

  /** Number of added lines accepted as comments. */
  function Accepted(files: seq<ParsedFile>, target: string): nat {
    if files == [] then 0 else AcceptedIn(files[0].addedLines, target) + Accepted(files[1..], target)
  }

  function AcceptedIn(added: seq<AddedLine>, target: string): nat {
    if added == [] then 0
    else (if CheckCommentContent(added[0].content, target) then 1 else 0) + AcceptedIn(added[1..], target)
  }

  ghost predicate Consistent(entries: seq<Entry>, t: Tally) {
    |t.found| == t.correct && forall n :: n in t.found ==> exists e :: e in entries && e.name == n
  }

  /** The first entry within reach, or None if there is none. */
  lemma {:induction false} FirstMatchIsEntry(entries: seq<Entry>, f: ParsedFile, num: int)
    ensures var m := FirstMatch(entries, f, num);
            if m.Some? then m.value in entries && Matches(m.value, f, num)
            else forall e :: e in entries ==> !Matches(e, f, num)
    ensures var m := FirstMatch(entries, f, num);
            m.Some? ==> exists i :: 0 <= i < |entries| && entries[i] == m.value && NoneMatches(entries[..i], f, num)
  {
    if entries != [] {
      if Matches(entries[0], f, num) {
        assert NoneMatches(entries[..0], f, num);
      } else {
        FirstMatchIsEntry(entries[1..], f, num);
        var m := FirstMatch(entries, f, num);
        if m.Some? {
          var i :| 0 <= i < |entries[1..]| && entries[1..][i] == m.value && NoneMatches(entries[1..][..i], f, num);
          assert entries[..i + 1] == [entries[0]] + entries[1..][..i];
          assert entries[i + 1] == m.value && NoneMatches(entries[..i + 1], f, num);
        }
      }
    }
  }

  ghost predicate NoneMatches(entries: seq<Entry>, f: ParsedFile, num: int) {
    forall e :: e in entries ==> !Matches(e, f, num)
  }

  lemma {:induction false} CountFileConserves(entries: seq<Entry>, target: string, f: ParsedFile, added: seq<AddedLine>, t: Tally)
    requires Consistent(entries, t)
    ensures var r := CountFile(entries, target, f, added, t);
            Consistent(entries, r) &&
            r.correct + r.duplicates + r.falsePositives
            == t.correct + t.duplicates + t.falsePositives + AcceptedIn(added, target)
    decreases |added|
  {
    if added != [] {
      FirstMatchIsEntry(entries, f, added[0].num);
      CountFileConserves(entries, target, f, added[1..], Count(entries, target, f, added[0], t));
    }
  }

  lemma {:induction false} CountAllConserves(entries: seq<Entry>, target: string, files: seq<ParsedFile>, t: Tally)
    requires Consistent(entries, t)
    ensures var r := CountAll(entries, target, files, t);
            Consistent(entries, r) &&
            r.correct + r.duplicates + r.falsePositives
            == t.correct + t.duplicates + t.falsePositives + Accepted(files, target)
    decreases |files|
  {
    if files != [] {
      CountFileConserves(entries, target, files[0], files[0].addedLines, t);
      CountAllConserves(entries, target, files[1..], CountFile(entries, target, files[0], files[0].addedLines, t));
    }
  }

  lemma {:induction false} PutGrows(entries: seq<Entry>, e: Entry)
    ensures |Put(entries, e)| <= |entries| + 1
  {
    if entries != [] { PutGrows(entries[1..], e); }
  }

  lemma {:induction false} PutAllSize(entries: seq<Entry>, deps: seq<Dep>)
    ensures |PutAll(entries, deps)| <= |entries| + |deps|
    decreases |deps|
  {
    if deps != [] {
      var e := Entry(deps[0].file, ExpectedLine(deps[0]), deps[0].name);
      PutGrows(entries, e);
      PutAllSize(Put(entries, e), deps[1..]);
    }
  }

  function Names(entries: seq<Entry>): (names: set<string>)
    ensures |names| <= |entries|
  {
    if entries == [] then {} else {entries[0].name} + Names(entries[1..])
  }

  lemma {:induction false} NamesOf(entries: seq<Entry>, n: string)
    ensures n in Names(entries) <==> exists e :: e in entries && e.name == n
  {
    if entries != [] {
      NamesOf(entries[1..], n);
      if e :| e in entries && e.name == n {
        if e != entries[0] { assert e in entries[1..]; }
      }
      if e :| e in entries[1..] && e.name == n { assert e in entries; }
      assert entries[0] in entries;
    }
  }

  lemma {:induction false} SubsetSize<T>(a: set<T>, b: set<T>)
    requires a <= b
    ensures |a| <= |b|
  {
    assert b == a + (b - a);
  }

  lemma {:induction false} TallyAddsUp(deps: seq<Dep>, target: string, files: seq<ParsedFile>)
    ensures var t := CountAll(PutAll([], deps), target, files, NO_TALLY);
            |t.found| + t.falsePositives + t.duplicates == Accepted(files, target) && |t.found| <= |deps|
  {
    var entries := PutAll([], deps);
    CountAllConserves(entries, target, files, NO_TALLY);
    var t := CountAll(entries, target, files, NO_TALLY);
    PutAllSize([], deps);
    forall n | n in t.found ensures n in Names(entries) { NamesOf(entries, n); }
    SubsetSize(t.found, Names(entries));
  }

  /** F1 is twice the hits over comments plus dependencies, and lies between precision
      and recall. */
  ghost predicate F1Holds(r: Evaluation, comments: nat) {
    r.truePositives > 0 ==>
      comments + r.numDeps > 0 &&
      r.f1 == (2 * r.truePositives) as real / (comments + r.numDeps) as real &&
      (r.precision <= r.f1 <= r.recall || r.recall <= r.f1 <= r.precision)
  }

  lemma {:induction false} ScoreF1(numDeps: nat, t: Tally, commentsOnly: bool, comments: nat)
    requires |t.found| <= numDeps && |t.found| + t.falsePositives + t.duplicates == comments
    ensures F1Holds(Score(numDeps, t, commentsOnly), comments)
  {
    if |t.found| > 0 {
      F1Formula(|t.found|, comments, numDeps);
    }
  }

  lemma {:induction false} RatioIs(a: nat, b: nat)
    requires a <= b
    ensures Ratio(a, b) * b as real == a as real
    ensures b == 0 ==> Ratio(a, b) == 0.0
  {
    if b > 0 {
      DivideBack(a as real, b as real, Ratio(a, b));
    }
  }

  lemma {:induction false} DivideBack(x: real, y: real, q: real)
    requires y > 0.0 && q == x / y
    ensures q * y == x
  {
  }

  /** Precision is the share of the comments that found a dependency, recall the share of
      the dependencies that were found; both are 0 if there are none. */
  ghost predicate SharesHold(r: Evaluation, comments: nat) {
    r.precision * comments as real == r.truePositives as real && (comments == 0 ==> r.precision == 0.0) &&
    r.recall * r.numDeps as real == r.truePositives as real && (r.numDeps == 0 ==> r.recall == 0.0) &&
    (r.truePositives == 0 ==> r.f1 == 0.0)
  }

  lemma {:induction false} ScoreShares(numDeps: nat, t: Tally, commentsOnly: bool, comments: nat)
    requires |t.found| <= numDeps && |t.found| + t.falsePositives + t.duplicates == comments
    ensures SharesHold(Score(numDeps, t, commentsOnly), comments)
  {
    RatioIs(|t.found|, comments);
    RatioIs(|t.found|, numDeps);
    if |t.found| == 0 {
      ZeroShare(comments);
      ZeroShare(numDeps);
    }
  }

  lemma {:induction false} ZeroShare(b: nat)
    ensures Ratio(0, b) == 0.0
  {
  }

  /** Full success: every dependency found, nothing else commented, nothing but comments added. */
  ghost predicate VerdictHolds(r: Evaluation, files: seq<ParsedFile>) {
    (r.fullSuccess <==> r.truePositives == r.numDeps && r.falsePositives == 0 && r.duplicates == 0 && r.commentsOnly) &&
    (r.commentsOnly <==> OnlyCommentsAdded(files))
  }

  function ContentsOf(f: ParsedFile): seq<string> {
    seq(|f.addedLines|, i requires 0 <= i < |f.addedLines| => f.addedLines[i].content)
  }

  lemma {:induction false} ContentHere(f: ParsedFile, c: string)
    ensures c in ContentsOf(f) <==> exists a :: a in f.addedLines && a.content == c
  {
    if c in ContentsOf(f) {
      var i :| 0 <= i < |f.addedLines| && ContentsOf(f)[i] == c;
      assert f.addedLines[i] in f.addedLines;
    }
    if a :| a in f.addedLines && a.content == c {
      var i :| 0 <= i < |f.addedLines| && f.addedLines[i] == a;
      assert ContentsOf(f)[i] == c;
    }
  }

  /** The text is that of an added line of one of the files. */
  ghost predicate IsAdded(files: seq<ParsedFile>, c: string) {
    exists f, a :: f in files && a in f.addedLines && a.content == c
  }

  lemma {:induction false} ContentOf(files: seq<ParsedFile>, c: string)
    ensures c in AllContent(files) <==> IsAdded(files, c)
  {
    if files != [] {
      var first, rest := files[0], files[1..];
      assert files == [first] + rest;
      ContentOf(rest, c);
      ContentHere(first, c);
      if IsAdded(files, c) {
        var f, a :| f in files && a in f.addedLines && a.content == c;
        assert f == first || f in rest;
      }
    }
  }

  lemma {:induction false} StartsWithHash(s: string)
    ensures "#" <= s <==> s != "" && s[0] == '#'
  {
    assert "#" == ['#'];
  }

  ghost predicate OnlyCommentsAdded(files: seq<ParsedFile>) {
    forall f, a :: f in files && a in f.addedLines ==> Strip(a.content) == "" || Strip(a.content)[0] == '#'
  }

  lemma {:induction false} CommentsOnlyIs(files: seq<ParsedFile>)
    ensures AllComments(AllContent(files)) <==> OnlyCommentsAdded(files)
  {
    var content := AllContent(files);
    if AllComments(content) {
      forall f, a | f in files && a in f.addedLines ensures Strip(a.content) == "" || Strip(a.content)[0] == '#' {
        ContentOf(files, a.content);
        assert IsAdded(files, a.content);
        var i :| 0 <= i < |content| && content[i] == a.content;
        StartsWithHash(Strip(a.content));
      }
    }
    if OnlyCommentsAdded(files) {
      forall i | 0 <= i < |content| ensures IsComment(content[i]) {
        ContentOf(files, content[i]);
        var f, a :| f in files && a in f.addedLines && a.content == content[i];
        StartsWithHash(Strip(a.content));
      }
    }
  }

  /** Every accepted comment line is counted exactly once, no dependency is found twice,
      precision and recall are the shares they should be, F1 is their harmonic mean, and the
      verdict is what it claims. */
  lemma {:induction false} ScoresAddUp(deps: seq<Dep>, target: string, patch: seq<string>)
    ensures var r, comments := Evaluate(deps, target, patch), Accepted(Parse(patch), target);
            r.truePositives + r.falsePositives + r.duplicates == comments &&
            r.truePositives <= r.numDeps == |deps| &&
            SharesHold(r, comments) && F1Holds(r, comments) && VerdictHolds(r, Parse(patch))
  {
    var files := Parse(patch);
    var t, r := CountAll(PutAll([], deps), target, files, NO_TALLY), Evaluate(deps, target, patch);
    TallyAddsUp(deps, target, files);
    EvaluateIsScore(deps, target, patch);
    ScoreF1(|deps|, t, r.commentsOnly, Accepted(files, target));
    ScoreShares(|deps|, t, r.commentsOnly, Accepted(files, target));
  }

  lemma {:induction false} EvaluateIsScore(deps: seq<Dep>, target: string, patch: seq<string>)
    ensures var r := Evaluate(deps, target, patch);
            r == Score(|deps|, CountAll(PutAll([], deps), target, Parse(patch), NO_TALLY), r.commentsOnly) && VerdictHolds(r, Parse(patch))
  {
    CommentsOnlyIs(Parse(patch));
  }

  lemma {:induction false} F1Formula(tp: nat, comments: nat, deps: nat)
    requires 0 < tp <= comments && tp <= deps
    ensures var p, r := Ratio(tp, comments), Ratio(tp, deps);
            p >= 0.0 && r >= 0.0 && F1(p, r) == (2 * tp) as real / (comments + deps) as real &&
            (p <= F1(p, r) <= r || r <= F1(p, r) <= p)
  {
    var t, c, d := tp as real, comments as real, deps as real;
    RatioNonNegative(tp, comments);
    RatioNonNegative(tp, deps);
    F1Real(t, c, d, t / c, t / d);
    assert (2 * tp) as real == 2.0 * t && (comments + deps) as real == c + d;
  }

  lemma {:induction false} F1Real(t: real, c: real, d: real, p: real, r: real)
    requires t > 0.0 && c > 0.0 && d > 0.0 && p == t / c && r == t / d
    ensures p > 0.0 && r > 0.0 && F1(p, r) == 2.0 * t / (c + d)
    ensures p <= F1(p, r) <= r || r <= F1(p, r) <= p
  {
    Quotient(t, c, p);
    Quotient(t, d, r);
    var f := 2.0 * p * r / (p + r);
    assert f * (p + r) == 2.0 * p * r;
    HarmonicMean(p, r, f, c, d, t);
    Between(p, r, f);
  }

  lemma {:induction false} Quotient(t: real, c: real, p: real)
    requires t > 0.0 && c > 0.0 && p == t / c
    ensures p > 0.0 && p * c == t
  {
  }

  lemma {:induction false} HarmonicMean(p: real, r: real, f: real, c: real, d: real, t: real)
    requires p > 0.0 && r > 0.0 && c > 0.0 && d > 0.0
    requires p * c == t && r * d == t && f * (p + r) == 2.0 * p * r
    ensures f == 2.0 * t / (c + d)
  {
    assert p * r * (c + d) == r * (p * c) + p * (r * d);
    assert p * r * (c + d) == t * (p + r);
    assert (f * (c + d)) * (p + r) == (f * (p + r)) * (c + d);
    assert (f * (p + r)) * (c + d) == 2.0 * (p * r * (c + d));
    SameFactor(f * (c + d), 2.0 * t, p + r);
  }

  lemma {:induction false} SameFactor(x: real, y: real, z: real)
    requires z > 0.0 && x * z == y * z
    ensures x == y
  {
  }

  lemma {:induction false} Between(p: real, r: real, f: real)
    requires p > 0.0 && r > 0.0 && f * (p + r) == 2.0 * p * r
    ensures p <= f <= r || r <= f <= p
  {
    Twice(p, r);
    if p <= r {
      BetweenOrdered(p, r, f, p + r, p * r);
    } else {
      Commute(p, r);
      BetweenOrdered(r, p, f, p + r, r * p);
    }
  }

  lemma {:induction false} BetweenOrdered(p: real, r: real, f: real, sum: real, product: real)
    requires 0.0 < p <= r && sum == p + r && product == p * r && f * sum == product + product
    ensures p <= f <= r
  {
    var low, high, mid := p * sum, r * sum, f * sum;
    Sides(p, r, sum, product, low, high);
    Cancel(p, f, sum, low, mid);
    Cancel(f, r, sum, mid, high);
  }

  lemma {:induction false} Sides(p: real, r: real, sum: real, product: real, low: real, high: real)
    requires 0.0 < p <= r && sum == p + r && product == p * r && low == p * sum && high == r * sum
    ensures low <= product + product <= high
  {
    var d := r - p;
    // low == product + p * p, product == p * p + p * d, high == product + r * r, r * r == product + r * d
    Distribute(p, p, r, sum);
    Distribute(p, p, d, r);
    Distribute(r, p, r, sum);
    Distribute(r, p, d, r);
    Commute(p, r);
    Positive(p, d);
    Positive(r, d);
  }

  lemma {:induction false} Twice(x: real, y: real)
    ensures 2.0 * x * y == x * y + x * y
  {
  }

  lemma {:induction false} Commute(x: real, y: real)
    ensures x * y == y * x
  {
  }

  lemma {:induction false} Distribute(x: real, y: real, z: real, sum: real)
    requires sum == y + z
    ensures x * sum == x * y + x * z
  {
  }

  lemma {:induction false} Positive(x: real, y: real)
    requires x > 0.0 && y >= 0.0
    ensures x * y >= 0.0 && (y > 0.0 ==> x * y > 0.0)
  {
  }

  lemma {:induction false} Cancel(x: real, y: real, z: real, xz: real, yz: real)
    requires z > 0.0 && xz == x * z && yz == y * z && xz <= yz
    ensures x <= y
  {
    if x > y {
      var d := x - y;
      Positive(z, d);
      Commute(x, z);
      Commute(y, z);
      Distribute(z, y, d, x);
    }
  }
}
