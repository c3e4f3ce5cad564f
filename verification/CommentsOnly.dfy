/** The issue_localize test that a patch to an existing file only adds comments. */
module CommentsOnly {
  import opened Options
  import opened Text
  import opened ParserAgreement

  predicate IsCodeLine(line: string) { Strip(line) != "" && !("#" <= Strip(line)) }

  /** `s.split("#", 1)[0].strip()` */
  function CodePart(stripped: string): string { Strip(BeforeFirst(stripped, '#')) }

  function Stripped(lines: seq<string>): set<string> {
    set l | l in lines :: Strip(l)
  }

  /** The removed line that an added line is taken for: its code part if it has an
      inline comment and that part was removed, else the whole line. */
  function Claim(line: string, removed: set<string>): Option<string> {
    var s := Strip(line);
    if Has(s, '#') && CodePart(s) in removed then Some(CodePart(s))
    else if s in removed then Some(s)
    else None
  }

  /** Code lines among the removed ones. */
  function RemovedCode(removed: seq<string>): set<string> {
    set l | l in removed && IsCodeLine(l) :: Strip(l)
  }

  /** What the added code lines are taken for. */
  function Claimed(added: seq<string>, removed: seq<string>): set<string> {
    set l | l in added && IsCodeLine(l) && Claim(l, Stripped(removed)).Some? :: Claim(l, Stripped(removed)).value
  }

  predicate AllClaim(added: seq<string>, removed: seq<string>) {
    forall l :: l in added && IsCodeLine(l) ==> Claim(l, Stripped(removed)).Some?
  }

  /** Every added code line is taken for a removed line and every removed code line is
      taken up. */
  ghost predicate Accepts(added: seq<string>, removed: seq<string>) {
    AllClaim(added, removed) && RemovedCode(removed) <= Claimed(added, removed)
  }

  /** Accepts a new file, and a change to an existing one exactly by that rule. */
  method CheckAddCommentsOnly(patch: FileChange) returns (ok: bool)
    ensures ok <==> patch.isNew || Accepts(patch.added, patch.removed)
  {
    if patch.isNew {
      return true;
    }
    var removedStripped := Stripped(patch.removed);
    var matchedRemoved: set<string> := {};
    for i := 0 to |patch.added|
      invariant AllClaim(patch.added[..i], patch.removed)
      invariant matchedRemoved == Claimed(patch.added[..i], patch.removed)
    {
      var line := patch.added[i];
      var stripped := Strip(line);
      assert patch.added[..i + 1] == patch.added[..i] + [line];
      if "#" <= stripped || stripped == "" {
        continue;
      }
      ghost var claim := Claim(line, removedStripped);
      if Has(stripped, '#') && CodePart(stripped) in removedStripped {
        matchedRemoved := matchedRemoved + {CodePart(stripped)};
        continue;
      }
      if stripped in removedStripped {
        matchedRemoved := matchedRemoved + {stripped};
        continue;
      }
      assert line in patch.added && !AllClaim(patch.added, patch.removed);
      return false;
    }
    assert patch.added[..|patch.added|] == patch.added;
    for i := 0 to |patch.removed|
      invariant forall l :: l in patch.removed[..i] && IsCodeLine(l) ==> Strip(l) in matchedRemoved
    {
      var s := Strip(patch.removed[i]);
      assert patch.removed[..i + 1] == patch.removed[..i] + [patch.removed[i]];
      if "#" <= s || s == "" {
        continue;
      }
      if s !in matchedRemoved {
        assert patch.removed[i] in patch.removed && s in RemovedCode(patch.removed);
        return false;
      }
    }
    assert patch.removed[..|patch.removed|] == patch.removed;
    return true;
  }

  // ----- What acceptance means -----

  /** An unchanged copy of the code line, or the code line followed by a comment. */
  ghost predicate IsCopy(addedLine: string, code: string) {
    var s := Strip(addedLine);
    s == code || (Has(s, '#') && CodePart(s) == code)
  }

  /** A stripped line is empty or begins and ends without white space. */
  lemma {:induction false} StripIsTight(s: string)
    ensures Strip(s) != "" ==> !IsSpace(Strip(s)[0])
    ensures Strip(Strip(s)) == Strip(s)
  {
    var a := TrimLeft(s, IsSpace);
    TrimLeftIsSuffix(s, IsSpace);
    TrimRightIsPrefix(a, IsSpace);
    TrimLeftIsSuffix(Strip(s), IsSpace);
    TrimRightIsPrefix(Strip(s), IsSpace);
  }

  /** The code part of a code line is code: it keeps the first character. */
  lemma {:induction false} CodePartIsCode(line: string)
    requires IsCodeLine(line)
    ensures IsCodeLine(CodePart(Strip(line))) && Strip(CodePart(Strip(line))) == CodePart(Strip(line))
  {
    var s := Strip(line);
    StripIsTight(line);
    var b := BeforeFirst(s, '#');
    assert "#" == ['#'];
    assert b[0] == s[0];
    TrimLeftIsSuffix(b, IsSpace);
    TrimRightIsPrefix(b, IsSpace);
    StripIsTight(b);
    assert CodePart(s)[0] == s[0];
  }

  lemma {:induction false} ClaimIsCode(line: string, removed: seq<string>)
    requires IsCodeLine(line) && Claim(line, Stripped(removed)).Some?
    ensures Claim(line, Stripped(removed)).value in RemovedCode(removed)
    ensures IsCopy(line, Claim(line, Stripped(removed)).value)
  {
    var c := Claim(line, Stripped(removed)).value;
    CodePartIsCode(line);
    var r :| r in removed && c == Strip(r);
    StripIsTight(line);
    StripIsTight(r);
  }

  /** An accepted patch keeps the code: every removed code line comes back among the
      added lines, unchanged or followed by a comment, every added code line is such a
      copy, and the two sets of code lines are the same. */
  lemma {:induction false} AcceptedKeepsCode(added: seq<string>, removed: seq<string>)
    requires Accepts(added, removed)
    ensures forall c :: c in RemovedCode(removed) ==> exists l :: l in added && IsCodeLine(l) && IsCopy(l, c)
    ensures forall l :: l in added && IsCodeLine(l) ==> exists c :: c in RemovedCode(removed) && IsCopy(l, c)
    ensures Claimed(added, removed) == RemovedCode(removed)
  {
    forall c | c in Claimed(added, removed)
      ensures c in RemovedCode(removed) && exists l :: l in added && IsCodeLine(l) && IsCopy(l, c)
    {
      var l :| l in added && IsCodeLine(l) && Claim(l, Stripped(removed)) == Some(c);
      ClaimIsCode(l, removed);
    }
    forall l | l in added && IsCodeLine(l)
      ensures exists c :: c in RemovedCode(removed) && IsCopy(l, c)
    {
      ClaimIsCode(l, removed);
    }
  }

  /** A code line whose own code part was removed as well. */
  ghost predicate Shadowed(code: string, removed: seq<string>) {
    Has(code, '#') && CodePart(code) in Stripped(removed)
  }

  /** A patch that puts all removed lines back is accepted if and only if no removed
      code line is shadowed by another removed line. */
  lemma {:induction false} ReorderedIsAccepted(lines: seq<string>)
    ensures Accepts(lines, lines) <==> forall c :: c in RemovedCode(lines) ==> !Shadowed(c, lines)
  {
    forall l | l in lines ensures Claim(l, Stripped(lines)).Some? {
      assert Strip(l) in Stripped(lines);
    }
    forall c | c in RemovedCode(lines)
      ensures c in Claimed(lines, lines) <==> !Shadowed(c, lines)
    {
      var l :| l in lines && IsCodeLine(l) && Strip(l) == c;
      if Shadowed(c, lines) {
        ShadowedIsUnclaimed(c, lines, lines);
      } else {
        assert Claim(l, Stripped(lines)) == Some(c);
      }
    }
  }

  /** No line at all is taken for a shadowed one. */
  lemma {:induction false} ShadowedIsUnclaimed(c: string, added: seq<string>, removed: seq<string>)
    requires Shadowed(c, removed)
    ensures c !in Claimed(added, removed)
  {
    forall m ensures Claim(m, Stripped(removed)) != Some(c) {
      NoHashInCodePart(Strip(m));
    }
  }

  lemma {:induction false} NoHashInCodePart(s: string)
    ensures !Has(CodePart(s), '#')
  {
    BeforeFirstHasNone(s, '#');
    var b := BeforeFirst(s, '#');
    StripHash(b);
  }

  lemma {:induction false} TrimLeftHash(s: string)
    ensures Has(TrimLeft(s, IsSpace), '#') ==> Has(s, '#')
  {
    if s != "" && IsSpace(s[0]) {
      TrimLeftHash(s[1..]);
      if Has(s[1..], '#') {
        var i :| 0 <= i < |s| - 1 && s[1..][i] == '#';
        assert s[i + 1] == '#';
      }
    }
  }

  lemma {:induction false} StripHash(s: string)
    ensures Has(Strip(s), '#') ==> Has(s, '#')
  {
    TrimLeftHash(s);
    TrimRightIsPrefix(TrimLeft(s, IsSpace), IsSpace);
    if Has(Strip(s), '#') {
      var i :| 0 <= i < |Strip(s)| && Strip(s)[i] == '#';
      assert TrimLeft(s, IsSpace)[i] == '#';
    }
  }

  lemma {:induction false} CommentedParts(code: string, commented: string)
    requires code != "" && code[0] != '#' && !IsSpace(code[0]) && !IsSpace(code[|code| - 1]) && !Has(code, '#')
    requires commented == code + [' '] + ['#'] + [' ', 'c']
    ensures Strip(commented) == commented && Strip(code) == code
    ensures Has(commented, '#') && IsCodeLine(commented) && CodePart(commented) == code
  {
    Tight(code);
    Tight(commented);
    HasSum(code, [' '], '#');
    BeforeFirstOf(code + [' '], [' ', 'c'], '#');
    var s := code + [' '];
    TrimLeftIsSuffix(s, IsSpace);
    assert s[..|s| - 1] == code;
    TrimRightIsPrefix(code, IsSpace);
    assert commented[|code| + 1] == '#' && commented[0] == code[0];
  }

  /** Two lines, one the other with a comment, are rejected when they change places. */
  lemma {:induction false} SwapIsRejected()
    ensures !Accepts(["x = 1", "x = 1 # c"], ["x = 1 # c", "x = 1"])
  {
    var code, commented := ['x', ' ', '=', ' ', '1'], ['x', ' ', '=', ' ', '1', ' ', '#', ' ', 'c'];
    CommentedParts(code, commented);
    ShadowedIsUnclaimed(commented, [code, commented], [commented, code]);
    assert commented in RemovedCode([commented, code]) && code in [commented, code];
  }
}
