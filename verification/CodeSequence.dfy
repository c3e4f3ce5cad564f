/** What the comments-only test does not see, the order and number of the code lines: which
    patches keep them nevertheless whenever they pass. */
module CodeSequence {
  import opened Options
  import opened Sequences
  import opened Text
  import opened UnifiedDiff
  import opened PatchParser
  import opened ParserAgreement
  import opened PatchText
  import opened CommentsOnly

  /** The code of a text, line by line, without comments. */
  function CodeLines(lines: seq<string>): seq<string> {
    if lines == [] then []
    else (if IsCodeLine(lines[0]) then [CodePart(Strip(lines[0]))] else []) + CodeLines(lines[1..])
  }

  lemma {:induction false} CodeSum(a: seq<string>, b: seq<string>)
    ensures CodeLines(a + b) == CodeLines(a) + CodeLines(b)
  {
    if a == [] {
      assert a + b == b;
    } else {
      assert (a + b)[1..] == a[1..] + b;
      CodeSum(a[1..], b);
      Assoc(if IsCodeLine(a[0]) then [CodePart(Strip(a[0]))] else [], CodeLines(a[1..]), CodeLines(b));
    }
  }

  /** The patched text has the same code in the same order. */
  predicate KeepsCode(edits: seq<Edit>) { CodeLines(NewText(edits)) == CodeLines(OldText(edits)) }

  // ----- Skeletons -----

  /** A code line of a patch: kept with its code, or removed or added, which the test does
      not see if the text begins with `--` or `++`. */
  datatype Place = Kept(code: string) | Removed | Added | UnseenRemoved | UnseenAdded

  function PlaceOf(e: Edit): seq<Place> {
    if e.NoEol? || !IsCodeLine(e.text) then []
    else match e
      case Keep(text) => [Kept(CodePart(Strip(text)))]
      case Del(text) => [if "--" <= text then UnseenRemoved else Removed]
      case Add(text) => [if "++" <= text then UnseenAdded else Added]
  }

  /** A patch without the texts it removes and adds. */
  function Skeleton(edits: seq<Edit>): seq<Place> {
    if edits == [] then [] else PlaceOf(edits[0]) + Skeleton(edits[1..])
  }

  /** Code is only removed or only added. */
  predicate OneSided(sk: seq<Place>) { Removed in sk <==> Added !in sk }

  predicate KeptOnly(sk: seq<Place>) { forall p :: p in sk ==> p.Kept? }

  /** One line is replaced, where it stands. */
  predicate OneReplacedAt(sk: seq<Place>, i: int) {
    0 <= i < |sk| - 1 && (sk[i..i + 2] == [Removed, Added] || sk[i..i + 2] == [Added, Removed]) &&
    KeptOnly(sk[..i]) && KeptOnly(sk[i + 2..])
  }

  predicate OneReplaced(sk: seq<Place>) { exists i :: 0 <= i < |sk| && OneReplacedAt(sk, i) }

  function Count(sk: seq<Place>, p: Place): nat { multiset(sk)[p] }

  function Shown(added: bool): Place { if added then Added else Removed }

  function Unseen(added: bool): Place { if added then UnseenAdded else UnseenRemoved }

  function Sign(added: bool): string { if added then "++" else "--" }

  /** The code of one side of a skeleton when the places of that side are filled in: the
      first one with `first`, the others with `rest`, the unseen ones with their signs. */
  function Side(sk: seq<Place>, added: bool, first: string, rest: string): seq<string> {
    if sk == [] then []
    else if sk[0].Kept? then [sk[0].code] + Side(sk[1..], added, first, rest)
    else if sk[0] == Shown(added) then [first] + Side(sk[1..], added, rest, rest)
    else if sk[0] == Unseen(added) then [Sign(added)] + Side(sk[1..], added, first, rest)
    else Side(sk[1..], added, first, rest)
  }

  function SideText(edits: seq<Edit>, added: bool): seq<string> { if added then NewText(edits) else OldText(edits) }

  // ----- Patches of three shapes keep the code -----

  function TextOf(e: Edit): string { if e.NoEol? then "" else e.text }

  /** Every visible code line that this side alone has, has the code x. */
  ghost predicate Uniform(edits: seq<Edit>, added: bool, x: string) {
    forall e :: e in edits && PlaceOf(e) == [Shown(added)] ==> CodePart(Strip(TextOf(e))) == x
  }

  lemma {:induction false} OneText(e: Edit)
    ensures OldText([e]) == if e.Keep? || e.Del? then [e.text] else []
    ensures NewText([e]) == if e.Keep? || e.Add? then [e.text] else []
  {
    assert [e][1..] == [];
  }

  lemma {:induction false} OneCodeLine(line: string)
    ensures CodeLines([line]) == if IsCodeLine(line) then [CodePart(Strip(line))] else []
  {
    assert [line][1..] == [];
  }

  lemma {:induction false} OnePlace(p: Place, added: bool, first: string, rest: string)
    ensures Side([p], added, first, rest) ==
            if p.Kept? then [p.code] else if p == Shown(added) then [first] else if p == Unseen(added) then [Sign(added)] else []
  {
    assert [p][1..] == [];
  }

  lemma {:induction false} SideOfEdit(e: Edit, added: bool, x: string)
    requires Uniform([e], added, x) && PlaceOf(e) != [Unseen(added)]
    ensures CodeLines(SideText([e], added)) == Side(PlaceOf(e), added, x, x)
  {
    assert e in [e];
    OneText(e);
    if !e.NoEol? {
      OneCodeLine(e.text);
      if IsCodeLine(e.text) { OnePlace(PlaceOf(e)[0], added, x, x); }
    }
  }

  lemma {:induction false} SideSum(a: seq<Place>, b: seq<Place>, added: bool, x: string)
    ensures Side(a + b, added, x, x) == Side(a, added, x, x) + Side(b, added, x, x)
  {
    if a == [] {
      assert a + b == b;
    } else {
      assert (a + b)[1..] == a[1..] + b;
      SideSum(a[1..], b, added, x);
    }
  }

  lemma {:induction false} SideOfEdits(edits: seq<Edit>, added: bool, x: string)
    requires Uniform(edits, added, x) && Unseen(added) !in Skeleton(edits)
    ensures CodeLines(SideText(edits, added)) == Side(Skeleton(edits), added, x, x)
  {
    if edits != [] {
      var e, rest := edits[0], edits[1..];
      assert edits == [e] + rest;
      SideOfEdit(e, added, x);
      SideOfEdits(rest, added, x);
      TextAppend([e], rest);
      CodeSum(SideText([e], added), SideText(rest, added));
      SideSum(PlaceOf(e), Skeleton(rest), added, x);
    }
  }

  lemma {:induction false} KeptSides(sk: seq<Place>, x: string)
    requires KeptOnly(sk)
    ensures Side(sk, true, x, x) == Side(sk, false, x, x)
  {
    if sk != [] {
      assert sk[0] in sk;
      KeptSides(sk[1..], x);
    }
  }

  lemma {:induction false} ReplacedSides(sk: seq<Place>, i: int, x: string)
    requires OneReplacedAt(sk, i)
    ensures Side(sk, true, x, x) == Side(sk, false, x, x)
  {
    var before, two, after := sk[..i], sk[i..i + 2], sk[i + 2..];
    assert sk == before + two + after;
    KeptSides(before, x);
    KeptSides(after, x);
    forall added: bool ensures Side(sk, added, x, x) == Side(before, added, x, x) + [x] + Side(after, added, x, x) {
      SideSum(before + two, after, added, x);
      SideSum(before, two, added, x);
      SideSum([sk[i]], [sk[i + 1]], added, x);
      OnePlace(sk[i], added, x, x);
      OnePlace(sk[i + 1], added, x, x);
      assert two == [sk[i]] + [sk[i + 1]];
    }
  }

  /** The texts of one side that the test gets to see. */
  function ShownTexts(edits: seq<Edit>, added: bool): seq<string> {
    if added then AddedTexts(edits) else RemovedTexts(edits)
  }

  /** The test accepts these edits as a patch to an existing file. */
  ghost predicate Passes(edits: seq<Edit>) { Accepts(AddedTexts(edits), RemovedTexts(edits)) }

  lemma {:induction false} HasPlace(edits: seq<Edit>, p: Place)
    ensures p in Skeleton(edits) <==> exists e :: e in edits && PlaceOf(e) == [p]
  {
    if edits != [] {
      HasPlace(edits[1..], p);
      if p in PlaceOf(edits[0]) { assert edits[0] in edits && PlaceOf(edits[0]) == [p]; }
    }
  }

  ghost predicate Seen(e: Edit, added: bool) {
    if added then e.Add? && !("++" <= e.text) else e.Del? && !("--" <= e.text)
  }

  ghost predicate IsPlaced(e: Edit, added: bool, t: string) { PlaceOf(e) == [Shown(added)] && Strip(TextOf(e)) == t }

  lemma {:induction false} PlaceOfSeen(e: Edit, added: bool)
    ensures PlaceOf(e) == [Shown(added)] <==> Seen(e, added) && IsCodeLine(TextOf(e))
  {
  }

  lemma {:induction false} SeenTexts(edits: seq<Edit>, added: bool, t: string)
    ensures t in ShownTexts(edits, added) <==> t != "" && exists e :: e in edits && Seen(e, added) && Strip(TextOf(e)) == t
  {
    TextsAre(edits, t);
    if e :| e in edits && Seen(e, added) && Strip(TextOf(e)) == t {
      var i :| 0 <= i < |edits| && edits[i] == e;
      assert if added then Adds(edits, t) else Dels(edits, t);
    }
    if added && Adds(edits, t) {
      var i :| 0 <= i < |edits| && edits[i].Add? && !("++" <= edits[i].text) && Strip(edits[i].text) == t;
      assert Seen(edits[i], added) && Strip(TextOf(edits[i])) == t;
    }
    if !added && Dels(edits, t) {
      var i :| 0 <= i < |edits| && edits[i].Del? && !("--" <= edits[i].text) && Strip(edits[i].text) == t;
      assert Seen(edits[i], added) && Strip(TextOf(edits[i])) == t;
    }
  }

  lemma {:induction false} StrippedCode(line: string)
    ensures IsCodeLine(Strip(line)) <==> IsCodeLine(line)
    ensures IsCodeLine(line) ==> Strip(line) != ""
  {
    StripIsTight(line);
  }

  lemma {:induction false} CodeTexts(edits: seq<Edit>, added: bool, t: string)
    ensures t in ShownTexts(edits, added) && IsCodeLine(t) <==> exists e :: e in edits && IsPlaced(e, added, t)
  {
    SeenTexts(edits, added, t);
    if e :| e in edits && IsPlaced(e, added, t) {
      PlaceOfSeen(e, added);
      StrippedCode(TextOf(e));
    }
    if t in ShownTexts(edits, added) && IsCodeLine(t) {
      var e :| e in edits && Seen(e, added) && Strip(TextOf(e)) == t;
      StrippedCode(TextOf(e));
      PlaceOfSeen(e, added);
      assert IsPlaced(e, added, t);
    }
  }

  lemma {:induction false} CountOfEdits(e: Edit, rest: seq<Edit>, p: Place)
    ensures Count(Skeleton([e] + rest), p) == Count(Skeleton(rest), p) + if PlaceOf(e) == [p] then 1 else 0
  {
    assert ([e] + rest)[1..] == rest;
    assert multiset(PlaceOf(e) + Skeleton(rest)) == multiset(PlaceOf(e)) + multiset(Skeleton(rest));
  }

  lemma {:induction false} OnlyPlaced(edits: seq<Edit>, added: bool) returns (line: Edit)
    requires Count(Skeleton(edits), Shown(added)) == 1
    ensures line in edits && PlaceOf(line) == [Shown(added)]
    ensures forall e :: e in edits && PlaceOf(e) == [Shown(added)] ==> e == line
  {
    var p, e, rest := Shown(added), edits[0], edits[1..];
    assert edits == [e] + rest;
    CountOfEdits(e, rest, p);
    if PlaceOf(e) == [p] {
      line := e;
      HasPlace(rest, p);
    } else {
      line := OnlyPlaced(rest, added);
    }
  }

  /** The text of the only visible code line of a side. */
  lemma {:induction false} OnlyText(edits: seq<Edit>, added: bool) returns (t: string)
    requires Count(Skeleton(edits), Shown(added)) == 1
    ensures t in ShownTexts(edits, added) && IsCodeLine(t) && Strip(t) == t
    ensures forall e :: e in edits && PlaceOf(e) == [Shown(added)] ==> Strip(TextOf(e)) == t
  {
    var line := OnlyPlaced(edits, added);
    t := Strip(TextOf(line));
    StripIsTight(TextOf(line));
    assert IsPlaced(line, added, t);
    CodeTexts(edits, added, t);
  }

  lemma {:induction false} ReplacedCounts(sk: seq<Place>, i: int)
    requires OneReplacedAt(sk, i)
    ensures Count(sk, Removed) == Count(sk, Added) == 1 && UnseenRemoved !in sk && UnseenAdded !in sk
  {
    var before, two, after := sk[..i], sk[i..i + 2], sk[i + 2..];
    assert sk == before + two + after;
    forall p: Place | !p.Kept? ensures Count(sk, p) == Count(two, p) {
      assert p !in before && p !in after;
    }
    assert Count(sk, UnseenRemoved) == Count(sk, UnseenAdded) == 0;
  }

  lemma {:induction false} NoHashBefore(s: string)
    requires !Has(s, '#')
    ensures BeforeFirst(s, '#') == s
  {
    if s != "" {
      assert s[0] != '#';
      assert forall i :: 0 <= i < |s| - 1 ==> s[1..][i] == s[i + 1];
      NoHashBefore(s[1..]);
    }
  }

  /** The code of a copy is the code it copies. */
  lemma {:induction false} CopyHasItsCode(line: string, code: string)
    requires IsCopy(line, code) && Strip(line) == line && Strip(code) == code
    ensures CodePart(line) == CodePart(code)
  {
    if line != code {
      NoHashInCodePart(line);
      NoHashBefore(code);
    }
  }

  /** What an added code line of an accepted patch copies, and what copies a removed one. */
  lemma {:induction false} Copied(added: seq<string>, removed: seq<string>, l: string) returns (r: string)
    requires Accepts(added, removed) && l in added && IsCodeLine(l)
    ensures r in removed && IsCodeLine(r) && IsCopy(l, Strip(r))
  {
    ClaimIsCode(l, removed);
    r :| r in removed && IsCodeLine(r) && Strip(r) == Claim(l, Stripped(removed)).value;
  }

  lemma {:induction false} Copying(added: seq<string>, removed: seq<string>, r: string) returns (l: string)
    requires Accepts(added, removed) && r in removed && IsCodeLine(r)
    ensures l in added && IsCodeLine(l)
  {
    assert Strip(r) in RemovedCode(removed) && Strip(r) in Claimed(added, removed);
    l :| l in added && IsCodeLine(l) && Claim(l, Stripped(removed)) == Some(Strip(r));
  }

  lemma {:induction false} CopiesOne(edits: seq<Edit>, a: string, r: string)
    requires Passes(edits) && a in AddedTexts(edits) && IsCodeLine(a)
    requires forall e :: e in edits && PlaceOf(e) == [Removed] ==> Strip(TextOf(e)) == r
    requires Strip(r) == r
    ensures IsCopy(a, r)
  {
    var l := Copied(AddedTexts(edits), RemovedTexts(edits), a);
    CodeTexts(edits, false, l);
    var e :| e in edits && IsPlaced(e, false, l);
    assert l == r;
  }

  lemma {:induction false} PassedReplacement(edits: seq<Edit>, i: int)
    requires Passes(edits) && OneReplacedAt(Skeleton(edits), i)
    ensures KeepsCode(edits)
  {
    ReplacedCounts(Skeleton(edits), i);
    var a := OnlyText(edits, true);
    var r := OnlyText(edits, false);
    CopiesOne(edits, a, r);
    CopyHasItsCode(a, r);
    var x := CodePart(r);
    assert Uniform(edits, true, x) && Uniform(edits, false, x);
    SideOfEdits(edits, true, x);
    SideOfEdits(edits, false, x);
    ReplacedSides(Skeleton(edits), i, x);
  }

  lemma {:induction false} NothingReplaced(edits: seq<Edit>)
    requires KeptOnly(Skeleton(edits))
    ensures KeepsCode(edits)
  {
    HasPlace(edits, Added);
    HasPlace(edits, Removed);
    SideOfEdits(edits, true, "");
    SideOfEdits(edits, false, "");
    KeptSides(Skeleton(edits), "");
  }

  /** Visible code on one side is answered by visible code on the other. */
  lemma {:induction false} OtherSide(edits: seq<Edit>, added: bool, t: string) returns (l: string)
    requires Passes(edits) && t in ShownTexts(edits, added) && IsCodeLine(t)
    ensures l in ShownTexts(edits, !added) && IsCodeLine(l)
  {
    if added {
      l := Copied(AddedTexts(edits), RemovedTexts(edits), t);
    } else {
      l := Copying(AddedTexts(edits), RemovedTexts(edits), t);
    }
  }

  lemma {:induction false} BothSides(edits: seq<Edit>, added: bool)
    requires Passes(edits) && Shown(added) in Skeleton(edits)
    ensures Shown(!added) in Skeleton(edits)
  {
    HasPlace(edits, Shown(added));
    var e :| e in edits && PlaceOf(e) == [Shown(added)];
    var t := Strip(TextOf(e));
    assert IsPlaced(e, added, t);
    CodeTexts(edits, added, t);
    var l := OtherSide(edits, added, t);
    CodeTexts(edits, !added, l);
    var e' :| e' in edits && IsPlaced(e', !added, l);
    HasPlace(edits, Shown(!added));
  }

  /** A patch that only adds code or only removes code does not pass. */
  lemma {:induction false} OneSidedFails(edits: seq<Edit>)
    requires OneSided(Skeleton(edits))
    ensures !Passes(edits)
  {
    if Passes(edits) {
      BothSides(edits, Added in Skeleton(edits));
      assert false;
    }
  }

  // ----- Every other shape has a patch that passes and does not -----

  /** A line that is all code. */
  ghost predicate IsCode(line: string) { IsCodeLine(line) && Strip(line) == line && CodePart(line) == line }

  ghost predicate IsPlain(line: string) {
    IsCode(line) && !Has(line, '#') && !("++" <= line) && !("--" <= line)
  }

  ghost predicate RealCode(sk: seq<Place>) { forall p :: p in sk && p.Kept? ==> IsCode(p.code) }

  function EditFor(p: Place, removed: string, added: string): Edit {
    match p
    case Kept(code) => Keep(code)
    case Removed => Del(removed)
    case Added => Add(added)
    case UnseenRemoved => Del(Sign(false))
    case UnseenAdded => Add(Sign(true))
  }

  /** The first line to remove or add is r0 or a0, the others are r or a. */
  function Fill(sk: seq<Place>, r0: string, r: string, a0: string, a: string): seq<Edit> {
    if sk == [] then []
    else [EditFor(sk[0], r0, a0)] +
         Fill(sk[1..], if sk[0].Removed? then r else r0, r, if sk[0].Added? then a else a0, a)
  }

  lemma {:induction false} TightCode(line: string)
    requires line != "" && line[0] != '#' && !IsSpace(line[0]) && !IsSpace(line[|line| - 1]) && !Has(line, '#')
    ensures IsCode(line)
  {
    Tight(line);
    NoHashBefore(line);
  }

  lemma {:induction false} Letters()
    ensures IsPlain("x") && IsPlain("y") && IsCode("++") && IsCode("--")
  {
    forall c | c in "xy+-" ensures IsCode([c]) && IsCode([c, c]) {
      TightCode([c]);
      TightCode([c, c]);
    }
    assert "x" == ['x'] && "y" == ['y'] && "++" == ['+', '+'] && "--" == ['-', '-'];
  }

  lemma {:induction false} KeptCode(sk: seq<Edit>)
    ensures RealCode(Skeleton(sk))
  {
    if sk != [] {
      KeptCode(sk[1..]);
      if !sk[0].NoEol? && IsCodeLine(sk[0].text) {
        CodePartIsCode(sk[0].text);
        CodeOfCode(sk[0].text);
      }
    }
  }

  lemma {:induction false} CodeOfCode(line: string)
    requires IsCodeLine(line)
    ensures IsCode(CodePart(Strip(line)))
  {
    CodePartIsCode(line);
    NoHashInCodePart(Strip(line));
    NoHashBefore(CodePart(Strip(line)));
  }

  lemma {:induction false} EditIsCode(p: Place, removed: string, added: string)
    requires IsPlain(removed) && IsPlain(added) && (p.Kept? ==> IsCode(p.code))
    ensures IsCode(EditFor(p, removed, added).text)
  {
    if !p.Kept? { Letters(); }
  }

  lemma {:induction false} EditPlace(p: Place, removed: string, added: string)
    requires IsPlain(removed) && IsPlain(added) && IsCode(EditFor(p, removed, added).text)
    ensures PlaceOf(EditFor(p, removed, added)) == [p]
  {
  }

  lemma {:induction false} EditForPlace(p: Place, removed: string, added: string)
    requires IsPlain(removed) && IsPlain(added) && (p.Kept? ==> IsCode(p.code))
    ensures var e := EditFor(p, removed, added);
            PlaceOf(e) == [p] &&
            CodeLines(OldText([e])) == Side([p], false, removed, removed) &&
            CodeLines(NewText([e])) == Side([p], true, added, added)
  {
    var e := EditFor(p, removed, added);
    EditIsCode(p, removed, added);
    EditPlace(p, removed, added);
    OneText(e);
    OneCodeLine(e.text);
    assert CodeLines([e.text]) == [e.text] && CodeLines([]) == [];
    OnePlace(p, false, removed, removed);
    OnePlace(p, true, added, added);
  }

  lemma {:induction false} SideCons(p: Place, rest: seq<Place>, added: bool, x: string, y: string)
    ensures Side([p] + rest, added, x, y) == Side([p], added, x, x) + Side(rest, added, if p == Shown(added) then y else x, y)
  {
    assert ([p] + rest)[1..] == rest;
    OnePlace(p, added, x, x);
  }

  lemma {:induction false} FillIs(sk: seq<Place>, r0: string, r: string, a0: string, a: string)
    requires RealCode(sk) && IsPlain(r0) && IsPlain(r) && IsPlain(a0) && IsPlain(a)
    ensures Skeleton(Fill(sk, r0, r, a0, a)) == sk
    ensures CodeLines(OldText(Fill(sk, r0, r, a0, a))) == Side(sk, false, r0, r)
    ensures CodeLines(NewText(Fill(sk, r0, r, a0, a))) == Side(sk, true, a0, a)
  {
    if sk != [] {
      var p, rest := sk[0], sk[1..];
      assert sk == [p] + rest && p in sk;
      var e := EditFor(p, r0, a0);
      var r1, a1 := if p.Removed? then r else r0, if p.Added? then a else a0;
      var edits := Fill(rest, r1, r, a1, a);
      EditForPlace(p, r0, a0);
      FillIs(rest, r1, r, a1, a);
      assert Fill(sk, r0, r, a0, a) == [e] + edits;
      TextAppend([e], edits);
      CodeSum(OldText([e]), OldText(edits));
      CodeSum(NewText([e]), NewText(edits));
      SideCons(p, rest, false, r0, r);
      SideCons(p, rest, true, a0, a);
    }
  }

  function FirstAndRest(n: nat, first: string, rest: string): seq<string> {
    if n == 0 then [] else [first] + seq(n - 1, _ => rest)
  }

  lemma {:induction false} FirstAndRestCons(n: nat, first: string, rest: string)
    ensures [first] + FirstAndRest(n, rest, rest) == FirstAndRest(n + 1, first, rest)
  {
  }

  lemma {:induction false} TextsForPlace(p: Place, removed: string, added: string)
    requires IsPlain(removed) && IsPlain(added)
    ensures RemovedTexts([EditFor(p, removed, added)]) == if p.Removed? then [removed] else []
    ensures AddedTexts([EditFor(p, removed, added)]) == if p.Added? then [added] else []
  {
    var e := EditFor(p, removed, added);
    assert [e][1..] == [];
    assert RemovedTexts([]) == [] && AddedTexts([]) == [];
  }

  lemma {:induction false} CountCons(p: Place, rest: seq<Place>, q: Place)
    ensures Count([p] + rest, q) == Count(rest, q) + if q == p then 1 else 0
  {
  }

  lemma {:induction false} FillCons(p: Place, rest: seq<Place>, r0: string, r: string, a0: string, a: string)
    requires IsPlain(r0) && IsPlain(a0)
    ensures var edits := Fill(rest, if p.Removed? then r else r0, r, if p.Added? then a else a0, a);
            RemovedTexts(Fill([p] + rest, r0, r, a0, a)) == (if p.Removed? then [r0] else []) + RemovedTexts(edits) &&
            AddedTexts(Fill([p] + rest, r0, r, a0, a)) == (if p.Added? then [a0] else []) + AddedTexts(edits)
  {
    assert ([p] + rest)[1..] == rest;
    TextsForPlace(p, r0, a0);
    TextsSum([EditFor(p, r0, a0)], Fill(rest, if p.Removed? then r else r0, r, if p.Added? then a else a0, a));
  }

  lemma {:induction false} TextsCons(p: Place, rest: seq<Place>, q: Place, first: string, others: string)
    ensures FirstAndRest(Count([p] + rest, q), first, others) ==
            (if p == q then [first] else []) + FirstAndRest(Count(rest, q), if p == q then others else first, others)
  {
    CountCons(p, rest, q);
    FirstAndRestCons(Count(rest, q), first, others);
  }

  lemma {:induction false} FillTexts(sk: seq<Place>, r0: string, r: string, a0: string, a: string)
    requires IsPlain(r0) && IsPlain(r) && IsPlain(a0) && IsPlain(a)
    ensures RemovedTexts(Fill(sk, r0, r, a0, a)) == FirstAndRest(Count(sk, Removed), r0, r)
    ensures AddedTexts(Fill(sk, r0, r, a0, a)) == FirstAndRest(Count(sk, Added), a0, a)
  {
    if sk != [] {
      var p, rest := sk[0], sk[1..];
      assert sk == [p] + rest;
      FillCons(p, rest, r0, r, a0, a);
      TextsCons(p, rest, Removed, r0, r);
      TextsCons(p, rest, Added, a0, a);
      FillTexts(rest, if p.Removed? then r else r0, r, if p.Added? then a else a0, a);
    }
  }

  /** If the same plain lines are removed and added, in whatever number and order. */
  lemma {:induction false} SameTextsPass(added: seq<string>, removed: seq<string>)
    requires forall t :: t in added <==> t in removed
    requires forall t :: t in added ==> IsPlain(t)
    ensures Accepts(added, removed)
  {
    forall t | t in added ensures Claim(t, Stripped(removed)) == Some(t) {
      assert Strip(t) in Stripped(removed);
    }
  }

  /** How often a text is kept. */
  function KeptCount(sk: seq<Place>, t: string): nat { Count(sk, Kept(t)) }

  lemma {:induction false} SideCount(sk: seq<Place>, added: bool, x: string, t: string)
    ensures multiset(Side(sk, added, x, x))[t] ==
            KeptCount(sk, t) + (if t == x then Count(sk, Shown(added)) else 0) + (if t == Sign(added) then Count(sk, Unseen(added)) else 0)
  {
    if sk != [] {
      var p, rest := sk[0], sk[1..];
      assert sk == [p] + rest;
      SideCount(rest, added, x, t);
      CountCons(p, rest, Kept(t));
      CountCons(p, rest, Shown(added));
      CountCons(p, rest, Unseen(added));
      SideSum([p], rest, added, x);
      OnePlace(p, added, x, x);
    }
  }

  /** Filled in with one line only, different numbers or unseen lines show. */
  lemma {:induction false} CountsShow(sk: seq<Place>, x: string)
    requires Count(sk, Removed) != Count(sk, Added) || UnseenRemoved in sk || UnseenAdded in sk
    requires x != "++" && x != "--"
    ensures Side(sk, false, x, x) != Side(sk, true, x, x)
  {
    var t := if UnseenRemoved in sk then "--" else if UnseenAdded in sk then "++" else x;
    SideCount(sk, false, x, t);
    SideCount(sk, true, x, t);
  }

  lemma {:induction false} PrefixKeepsDifference<T>(a: seq<T>, u: seq<T>, v: seq<T>)
    requires u != v
    ensures a + u != a + v
  {
    assert (a + u)[|a|..] == u && (a + v)[|a|..] == v;
  }

  lemma {:induction false} FirstShows(sk: seq<Place>, added: bool)
    requires Shown(added) in sk
    ensures Side(sk, added, "x", "y") != Side(sk, added, "y", "x")
  {
    var p, rest := sk[0], sk[1..];
    assert sk == [p] + rest;
    SideCons(p, rest, added, "x", "y");
    SideCons(p, rest, added, "y", "x");
    OnePlace(p, added, "x", "x");
    OnePlace(p, added, "y", "y");
    if p != Shown(added) {
      FirstShows(rest, added);
      PrefixKeepsDifference(Side([p], added, "x", "x"), Side(rest, added, "x", "y"), Side(rest, added, "y", "x"));
    } else {
      assert Side(sk, added, "x", "y")[0] == "x" && Side(sk, added, "y", "x")[0] == "y";
    }
  }

  lemma {:induction false} KeptBefore(p: Place, rest: seq<Place>, i: int)
    requires p.Kept? && OneReplacedAt(rest, i)
    ensures OneReplaced([p] + rest)
  {
    var sk := [p] + rest;
    assert sk[i + 1..i + 3] == rest[i..i + 2] && sk[i + 3..] == rest[i + 2..] && sk[..i + 1] == [p] + rest[..i];
    assert OneReplacedAt(sk, i + 1);
  }

  /** Two different places side by side and nothing else but kept code. */
  lemma {:induction false} Adjacent(sk: seq<Place>)
    requires Count(sk, Removed) == Count(sk, Added) == 1 && UnseenRemoved !in sk && UnseenAdded !in sk
    requires |sk| > 1 && !sk[0].Kept? && !sk[1].Kept?
    ensures OneReplacedAt(sk, 0)
  {
    var p, q, more := sk[0], sk[1], sk[2..];
    assert sk == [p] + ([q] + more) && p in sk && q in sk;
    AfterTwo(p, q, more, Removed);
    AfterTwo(p, q, more, Added);
    assert [p, q] == [Removed, Added] || [p, q] == [Added, Removed];
    assert forall x :: x in more ==> x in sk;
    NothingLeft(more);
    assert sk[0..2] == [p, q] && sk[..0] == [];
  }

  lemma {:induction false} NothingLeft(sk: seq<Place>)
    requires Count(sk, Removed) == Count(sk, Added) == 0 && UnseenRemoved !in sk && UnseenAdded !in sk
    ensures KeptOnly(sk)
  {
    forall p | p in sk ensures p.Kept? { assert Count(sk, p) > 0; }
  }

  lemma {:induction false} AfterTwo(p: Place, q: Place, more: seq<Place>, x: Place)
    ensures Count([p] + ([q] + more), x) == Count(more, x) + (if x == p then 1 else 0) + (if x == q then 1 else 0)
  {
    CountCons(p, [q] + more, x);
    CountCons(q, more, x);
  }

  lemma {:induction false} HeadsDiffer(p: Place, code: string, more: seq<Place>, x: string)
    requires (p.Removed? || p.Added?) && x != code
    ensures Side([p] + ([Kept(code)] + more), false, x, x) != Side([p] + ([Kept(code)] + more), true, x, x)
  {
    var rest, added := [Kept(code)] + more, p.Added?;
    SideCons(p, rest, added, x, x);
    SideCons(p, rest, !added, x, x);
    SideCons(Kept(code), more, !added, x, x);
    OnePlace(p, added, x, x);
    OnePlace(p, !added, x, x);
    OnePlace(Kept(code), !added, x, x);
    assert Side([p] + rest, added, x, x)[0] == x;
    assert Side([p] + rest, !added, x, x) == [] + Side(rest, !added, x, x) == Side(rest, !added, x, x);
    assert Side(rest, !added, x, x)[0] == code;
  }

  /** With kept code in between, one of two lines shows that it has moved. */
  lemma {:induction false} MoveShows(sk: seq<Place>) returns (x: string)
    requires Count(sk, Removed) == Count(sk, Added) == 1 && UnseenRemoved !in sk && UnseenAdded !in sk && !OneReplaced(sk)
    ensures (x == "x" || x == "y") && Side(sk, false, x, x) != Side(sk, true, x, x)
  {
    var p, rest := sk[0], sk[1..];
    assert sk == [p] + rest;
    CountCons(p, rest, Removed);
    CountCons(p, rest, Added);
    if p.Kept? {
      if i :| 0 <= i < |rest| && OneReplacedAt(rest, i) { KeptBefore(p, rest, i); }
      x := MoveShows(rest);
      SideCons(p, rest, false, x, x);
      SideCons(p, rest, true, x, x);
      OnePlace(p, false, x, x);
      OnePlace(p, true, x, x);
      PrefixKeepsDifference([p.code], Side(rest, false, x, x), Side(rest, true, x, x));
    } else {
      assert p in sk && (p.Removed? || p.Added?) && |rest| > 0;
      if !rest[0].Kept? { Adjacent(sk); }
      x := if rest[0].code == "x" then "y" else "x";
      assert rest == [rest[0]] + rest[1..];
      HeadsDiffer(p, rest[0].code, rest[1..], x);
    }
  }

  /** The shapes that keep the code whenever they pass. */
  predicate Harmless(sk: seq<Place>) { OneSided(sk) || KeptOnly(sk) || OneReplaced(sk) }

  lemma {:induction false} KeptByCounts(sk: seq<Place>)
    requires !KeptOnly(sk) && UnseenRemoved !in sk && UnseenAdded !in sk && !OneSided(sk)
    ensures Count(sk, Removed) > 0 && Count(sk, Added) > 0
  {
    var p :| p in sk && !p.Kept?;
    assert p == Removed || p == Added;
  }

  /** Two lines are enough to show it for any other shape. */
  lemma {:induction false} FillShows(sk: seq<Place>) returns (r0: string, r: string, a0: string, a: string)
    requires !Harmless(sk)
    ensures {r0, r, a0, a} <= {"x", "y"} && Side(sk, false, r0, r) != Side(sk, true, a0, a)
    ensures forall t :: t in FirstAndRest(Count(sk, Removed), r0, r) <==> t in FirstAndRest(Count(sk, Added), a0, a)
  {
    var m, n := Count(sk, Removed), Count(sk, Added);
    assert (m > 0 <==> Removed in sk) && (n > 0 <==> Added in sk);
    r0, r, a0, a := "x", "x", "x", "x";
    if m != n || UnseenRemoved in sk || UnseenAdded in sk {
      CountsShow(sk, "x");
    } else {
      KeptByCounts(sk);
      if m == 1 {
        var x := MoveShows(sk);
        r0, r, a0, a := x, x, x, x;
      } else {
        r := "y";
        FirstShows(sk, true);
        if Side(sk, false, "x", "y") == Side(sk, true, "x", "y") {
          a0, a := "y", "x";
        } else {
          a0, a := "x", "y";
        }
      }
    }
    FirstAndRestHas(m, r0, r);
    FirstAndRestHas(n, a0, a);
  }

  lemma {:induction false} FirstAndRestHas(n: nat, first: string, rest: string)
    ensures forall t :: t in FirstAndRest(n, first, rest) <==> (n > 0 && t == first) || (n > 1 && t == rest)
  {
    if n > 0 { assert FirstAndRest(n, first, rest)[0] == first; }
    if n > 1 { assert FirstAndRest(n, first, rest)[1] == rest; }
  }

  lemma {:induction false} FillPasses(sk: seq<Place>, r0: string, r: string, a0: string, a: string)
    requires IsPlain(r0) && IsPlain(r) && IsPlain(a0) && IsPlain(a)
    requires forall t :: t in FirstAndRest(Count(sk, Removed), r0, r) <==> t in FirstAndRest(Count(sk, Added), a0, a)
    ensures Passes(Fill(sk, r0, r, a0, a))
  {
    FillTexts(sk, r0, r, a0, a);
    FirstAndRestHas(Count(sk, Added), a0, a);
    SameTextsPass(FirstAndRest(Count(sk, Added), a0, a), FirstAndRest(Count(sk, Removed), r0, r));
  }

  /** Any patch of another shape has a sibling of the same shape that passes and does not
      keep the code. */
  lemma {:induction false} HarmfulSibling(edits: seq<Edit>) returns (sibling: seq<Edit>)
    requires !Harmless(Skeleton(edits))
    ensures Skeleton(sibling) == Skeleton(edits) && Passes(sibling) && !KeepsCode(sibling)
  {
    var sk := Skeleton(edits);
    var r0, r, a0, a := FillShows(sk);
    Letters();
    assert forall t :: t in {r0, r, a0, a} ==> IsPlain(t);
    KeptCode(edits);
    sibling := Fill(sk, r0, r, a0, a);
    FillIs(sk, r0, r, a0, a);
    FillPasses(sk, r0, r, a0, a);
  }

  lemma {:induction false} HarmlessKeepsCode(edits: seq<Edit>)
    requires Passes(edits) && Harmless(Skeleton(edits))
    ensures KeepsCode(edits)
  {
    if OneSided(Skeleton(edits)) {
      OneSidedFails(edits);
    } else if KeptOnly(Skeleton(edits)) {
      NothingReplaced(edits);
    } else {
      var i :| 0 <= i < |Skeleton(edits)| && OneReplacedAt(Skeleton(edits), i);
      PassedReplacement(edits, i);
    }
  }

  // ----- Printed patches -----

  function FileEdits(fd: FileDiff): seq<Edit> { Script(fd.hunks, fd.tail) }

  /** The evaluation of the printed patch takes it for one change to an existing file, and
      accepts it. */
  ghost predicate PassesPrinted(fd: FileDiff) {
    exists change :: GitChanges(PrintPatch([fd])) == [change] && !change.isNew && Accepts(change.added, change.removed)
  }

  lemma {:induction false} NoTextsKept(lines: seq<string>)
    ensures AddedTexts(KeepAll(lines)) == [] && RemovedTexts(KeepAll(lines)) == []
  {
    if lines != [] {
      assert KeepAll(lines)[1..] == KeepAll(lines[1..]);
      NoTextsKept(lines[1..]);
    }
  }

  /** The lines that a printed patch leaves out are not changed. */
  lemma {:induction false} TextsOfScript(hunks: seq<Hunk>, tail: seq<string>)
    ensures AddedTexts(Script(hunks, tail)) == AddedTexts(AllEdits(hunks))
    ensures RemovedTexts(Script(hunks, tail)) == RemovedTexts(AllEdits(hunks))
  {
    if hunks == [] {
      NoTextsKept(tail);
    } else {
      var h, more := hunks[0], hunks[1..];
      NoTextsKept(h.skip);
      TextsOfScript(more, tail);
      TextsSum(KeepAll(h.skip) + h.body, Script(more, tail));
      TextsSum(KeepAll(h.skip), h.body);
      TextsSum(h.body, AllEdits(more));
      assert [] + AddedTexts(h.body) == AddedTexts(h.body) && [] + RemovedTexts(h.body) == RemovedTexts(h.body);
    }
  }

  lemma {:induction false} ChangesOfOne(fd: FileDiff)
    ensures ChangesOf([fd]) == [ChangeOf(fd)]
  {
    var none: seq<FileDiff> := [];
    MapCons(ChangeOf, fd, none);
    assert [fd] + none == [fd];
  }

  lemma {:induction false} PrintedPasses(fd: FileDiff)
    requires Readable(fd)
    ensures PassesPrinted(fd) <==> !SaysNew(fd.meta) && Passes(FileEdits(fd))
  {
    assert forall x :: x in [fd] ==> x == fd;
    ChangesOfPrinted([fd]);
    ChangesOfOne(fd);
    TextsOfScript(fd.hunks, fd.tail);
  }

  lemma {:induction false} PrintedSibling(edits: seq<Edit>) returns (fd: FileDiff)
    ensures Readable(fd) && !SaysNew(fd.meta) && FileEdits(fd) == edits
  {
    fd := OneHunk("f", edits);
    forall k ensures !SeparatorAt("f", k) { }
    var none: seq<Hunk> := [];
    assert fd.hunks[1..] == none && Script(none, []) == KeepAll([]) == [];
    assert Script(fd.hunks, []) == KeepAll([]) + edits + [];
  }

  /** All readable patches to an existing file that have this shape and pass keep the code. */
  ghost predicate AlwaysKeepsCode(sk: seq<Place>) {
    forall fd :: Readable(fd) && PassesPrinted(fd) && Skeleton(FileEdits(fd)) == sk ==> KeepsCode(FileEdits(fd))
  }

  /** Whatever lines it removes and adds, a patch of a given shape keeps the code and its order
      whenever it passes, if and only if it changes no code, or one line where it stands, or
      cannot pass because it only removes or only adds code. */
  lemma {:induction false} KeepsCodeIffHarmless(edits: seq<Edit>)
    ensures AlwaysKeepsCode(Skeleton(edits)) <==> Harmless(Skeleton(edits))
  {
    if Harmless(Skeleton(edits)) {
      forall fd | Readable(fd) && PassesPrinted(fd) && Skeleton(FileEdits(fd)) == Skeleton(edits)
        ensures KeepsCode(FileEdits(fd))
      {
        PrintedPasses(fd);
        HarmlessKeepsCode(FileEdits(fd));
      }
    } else {
      var sibling := HarmfulSibling(edits);
      var fd := PrintedSibling(sibling);
      PrintedPasses(fd);
    }
  }

  lemma {:induction false} FillOfThree(code: string)
    ensures Fill([Removed, Added, Added], code, code, code, code) == [Del(code), Add(code), Add(code)]
  {
    var none: seq<Place> := [];
    var sk, two, one := [Removed, Added, Added], [Added, Added], [Added];
    assert sk[1..] == two && two[1..] == one && one[1..] == none;
    assert Fill(none, code, code, code, code) == [];
    assert Fill(one, code, code, code, code) == [Add(code)];
    assert Fill(two, code, code, code, code) == [Add(code)] + [Add(code)];
  }

  /** Writing a code line twice passes. */
  lemma {:induction false} DuplicatePasses(code: string)
    requires IsCodeLine(code) && Strip(code) == code && !Has(code, '#') && !("++" <= code) && !("--" <= code)
    ensures var body := [Del(code), Add(code), Add(code)]; Passes(body) && !KeepsCode(body)
  {
    NoHashBefore(code);
    DuplicateFill([Removed, Added, Added], code);
    FillOfThree(code);
  }

  lemma {:induction false} DuplicateFill(sk: seq<Place>, code: string)
    requires sk == [Removed, Added, Added] && IsPlain(code)
    ensures Passes(Fill(sk, code, code, code, code)) && !KeepsCode(Fill(sk, code, code, code, code))
  {
    CountCons(Removed, [Added, Added], Removed);
    CountCons(Removed, [Added, Added], Added);
    assert sk == [Removed] + [Added, Added] && Count([Added, Added], Added) == 2 && Count([Added, Added], Removed) == 0;
    FirstAndRestHas(1, code, code);
    FirstAndRestHas(2, code, code);
    FillPasses(sk, code, code, code, code);
    FillIs(sk, code, code, code, code);
    CountsShow(sk, code);
  }

  /** Adding a line that begins with `++` passes although nothing else changes. */
  lemma {:induction false} UnseenPasses(text: string)
    requires "++" <= text
    ensures Passes([Add(text)]) && !KeepsCode([Add(text)])
  {
    var e := Add(text);
    SignIsCode(text);
    OneText(e);
    OneCodeLine(text);
    assert [e][1..] == [] && AddedTexts([e]) == [] && RemovedTexts([e]) == [];
  }

  lemma {:induction false} SignIsCode(text: string)
    requires "++" <= text
    ensures IsCodeLine(text)
  {
    assert text[0] == '+';
    TrimLeftIsSuffix(text, IsSpace);
    TrimRightIsPrefix(text, IsSpace);
    assert Strip(text)[0] == '+' && "#" == ['#'];
  }
}
