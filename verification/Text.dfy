/** The string operations of the evaluators: stripping, ASCII lower-casing,
    substring search, and decimal numerals as printed in a hunk header. */
module Text {

  /** Python's `str.isspace` on one character. */
  predicate IsSpace(c: char) {
    var n := c as int;
    9 <= n <= 13 || 28 <= n <= 32 || n == 0x85 || n == 0xa0 || n == 0x1680 ||
    0x2000 <= n <= 0x200a || n == 0x2028 || n == 0x2029 || n == 0x202f || n == 0x205f || n == 0x3000
  }

  function TrimLeft(s: string, drop: char -> bool): string {
    if s != "" && drop(s[0]) then TrimLeft(s[1..], drop) else s
  }

  function TrimRight(s: string, drop: char -> bool): string {
    if s != "" && drop(s[|s| - 1]) then TrimRight(s[..|s| - 1], drop) else s
  }

  function Strip(s: string): string {
    TrimRight(TrimLeft(s, IsSpace), IsSpace)
  }

  function LowerChar(c: char): char {
    if 'A' <= c <= 'Z' then (c as int + 32) as char else c
  }

  function Lower(s: string): string {
    seq(|s|, i requires 0 <= i < |s| => LowerChar(s[i]))
  }

  /** `t in s` for strings. */
  predicate Contains(s: string, t: string) {
    t <= s || (s != "" && Contains(s[1..], t))
  }

  lemma {:induction false} ContainsAt(s: string, t: string, k: nat)
    requires k + |t| <= |s| && s[k..k + |t|] == t
    ensures Contains(s, t)
  {
    if k > 0 {
      assert s[1..][k - 1..k - 1 + |t|] == t;
      ContainsAt(s[1..], t, k - 1);
    }
  }

  lemma {:induction false} ContainsIndex(s: string, t: string) returns (k: nat)
    requires Contains(s, t)
    ensures k + |t| <= |s| && s[k..k + |t|] == t
  {
    if t <= s {
      k := 0;
    } else {
      var j := ContainsIndex(s[1..], t);
      k := j + 1;
    }
  }

  lemma {:induction false} ContainsInside(before: string, t: string, after: string)
    ensures Contains((before + t) + after, t)
  {
    assert ((before + t) + after)[|before|..|before| + |t|] == t;
    ContainsAt((before + t) + after, t, |before|);
  }

  lemma {:induction false} ContainsAround(before: string, s: string, after: string, t: string)
    requires Contains(s, t)
    ensures Contains(before + s + after, t)
  {
    var k := ContainsIndex(s, t);
    assert (before + s + after)[|before| + k..|before| + k + |t|] == t;
    ContainsAt(before + s + after, t, |before| + k);
  }

  /** `s.count(t)`: occurrences that do not overlap, scanned from the left. */
  function CountOccurrences(s: string, t: string): nat
    requires t != ""
    decreases |s|
  {
    if |s| < |t| then 0
    else if t <= s then 1 + CountOccurrences(s[|t|..], t)
    else CountOccurrences(s[1..], t)
  }

  lemma {:induction false} CountIsPositive(s: string, t: string)
    requires t != ""
    ensures CountOccurrences(s, t) > 0 <==> Contains(s, t)
    decreases |s|
  {
    if |s| < |t| {
      if Contains(s, t) { var k := ContainsIndex(s, t); }
    } else if !(t <= s) {
      CountIsPositive(s[1..], t);
    }
  }

  // ----- Decimal numerals -----

  predicate IsDigit(c: char) { '0' <= c <= '9' }

  function DigitChar(d: nat): char
    requires d < 10
  {
    ('0' as int + d) as char
  }

  /** The shortest decimal numeral of n. */
  function Numeral(n: nat): string {
    if n < 10 then [DigitChar(n)] else Numeral(n / 10) + [DigitChar(n % 10)]
  }

  /** `int(s)` on a run of digits. */
  function NumeralValue(s: string): nat
    requires forall i :: 0 <= i < |s| ==> IsDigit(s[i])
  {
    if s == "" then 0
    else
      assert IsDigit(s[|s| - 1]);
      10 * NumeralValue(s[..|s| - 1]) + (s[|s| - 1] as int - '0' as int)
  }

  /** Length of the longest prefix of digits. */
  function DigitRun(s: string): (k: nat)
    ensures k <= |s| && forall i :: 0 <= i < k ==> IsDigit(s[i])
  {
    if s != "" && IsDigit(s[0]) then 1 + DigitRun(s[1..]) else 0
  }

  lemma {:induction false} NumeralIsDigits(n: nat)
    ensures Numeral(n) != "" && forall i :: 0 <= i < |Numeral(n)| ==> IsDigit(Numeral(n)[i])
  {
    if n >= 10 { NumeralIsDigits(n / 10); }
  }

  /** Reading a printed numeral gives the number back. */
  lemma {:induction false} NumeralRoundTrip(n: nat)
    ensures forall i :: 0 <= i < |Numeral(n)| ==> IsDigit(Numeral(n)[i])
    ensures NumeralValue(Numeral(n)) == n
  {
    NumeralIsDigits(n);
    if n >= 10 {
      NumeralRoundTrip(n / 10);
      var s := Numeral(n);
      assert s[..|s| - 1] == Numeral(n / 10);
    }
  }

  /** The digit run of a numeral followed by a non-digit is the numeral. */
  lemma {:induction false} DigitRunOf(ds: string, rest: string)
    requires forall i :: 0 <= i < |ds| ==> IsDigit(ds[i])
    requires rest == "" || !IsDigit(rest[0])
    ensures DigitRun(ds + rest) == |ds|
  {
    if ds == "" {
      assert ds + rest == rest;
    } else {
      assert (ds + rest)[1..] == ds[1..] + rest;
      DigitRunOf(ds[1..], rest);
    }
  }

  // ----- Characters and parts -----

  predicate Has(s: string, c: char) { exists i :: 0 <= i < |s| && s[i] == c }

  /** `s.split(c)[-1]` */
  function AfterLast(s: string, c: char): string {
    if Has(s, c) then AfterLast(s[1..], c) else s
  }

  /** `s.split(c)[0]` */
  function BeforeFirst(s: string, c: char): string {
    if s == "" || s[0] == c then "" else [s[0]] + BeforeFirst(s[1..], c)
  }

  lemma {:induction false} HasSum(a: string, b: string, c: char)
    ensures Has(a + b, c) <==> Has(a, c) || Has(b, c)
  {
    if Has(a, c) {
      var i :| 0 <= i < |a| && a[i] == c;
      assert (a + b)[i] == c;
    }
    if Has(b, c) {
      var i :| 0 <= i < |b| && b[i] == c;
      assert (a + b)[|a| + i] == c;
    }
  }

  lemma {:induction false} AfterLastOf(pre: string, name: string, c: char)
    requires !Has(name, c)
    ensures AfterLast(pre + [c] + name, c) == name
    ensures Has(pre + [c] + name, c)
  {
    var s := pre + [c] + name;
    assert s[|pre|] == c;
    if pre == [] {
      assert s[1..] == name;
    } else {
      assert s[1..] == pre[1..] + [c] + name;
      AfterLastOf(pre[1..], name, c);
    }
  }

  lemma {:induction false} BeforeFirstOf(name: string, rest: string, c: char)
    requires !Has(name, c)
    ensures BeforeFirst(name + [c] + rest, c) == name
  {
    if name != "" {
      assert name[0] != c;
      assert forall i :: 0 <= i < |name| - 1 ==> name[1..][i] == name[i + 1];
      assert (name + [c] + rest)[1..] == name[1..] + [c] + rest;
      BeforeFirstOf(name[1..], rest, c);
    }
  }

  lemma {:induction false} BeforeFirstHasNone(s: string, c: char)
    ensures !Has(BeforeFirst(s, c), c)
  {
    if s != "" && s[0] != c {
      BeforeFirstHasNone(s[1..], c);
      var b := BeforeFirst(s[1..], c);
      assert forall i :: 1 <= i < |b| + 1 ==> ([s[0]] + b)[i] == b[i - 1];
    }
  }

  lemma {:induction false} TrimRightIsPrefix(s: string, drop: char -> bool)
    ensures TrimRight(s, drop) <= s
    ensures TrimRight(s, drop) == "" || !drop(TrimRight(s, drop)[|TrimRight(s, drop)| - 1])
    ensures s != "" && !drop(s[0]) ==> TrimRight(s, drop) != ""
    ensures s != "" && !drop(s[|s| - 1]) ==> TrimRight(s, drop) == s
    decreases |s|
  {
    if s != "" && drop(s[|s| - 1]) {
      TrimRightIsPrefix(s[..|s| - 1], drop);
    }
  }

  lemma {:induction false} TrimLeftIsSuffix(s: string, drop: char -> bool)
    ensures |TrimLeft(s, drop)| <= |s| && TrimLeft(s, drop) == s[|s| - |TrimLeft(s, drop)|..]
    ensures TrimLeft(s, drop) == "" || !drop(TrimLeft(s, drop)[0])
    ensures s != "" && !drop(s[0]) ==> TrimLeft(s, drop) == s
  {
    if s != "" && drop(s[0]) {
      TrimLeftIsSuffix(s[1..], drop);
    }
  }

  lemma {:induction false} TrimLeftAll(a: string, s: string, drop: char -> bool)
    requires (forall i :: 0 <= i < |a| ==> drop(a[i])) && (s == "" || !drop(s[0]))
    ensures TrimLeft(a + s, drop) == s
  {
    if a == "" {
      assert a + s == s;
    } else {
      assert (a + s)[1..] == a[1..] + s;
      TrimLeftAll(a[1..], s, drop);
    }
  }

  lemma {:induction false} TrimRightAll(s: string, c: string, drop: char -> bool)
    requires (forall i :: 0 <= i < |c| ==> drop(c[i])) && (s == "" || !drop(s[|s| - 1]))
    ensures TrimRight(s + c, drop) == s
    decreases |c|
  {
    if c == "" {
      assert s + c == s;
    } else {
      assert (s + c)[..|s + c| - 1] == s + c[..|c| - 1];
      TrimRightAll(s, c[..|c| - 1], drop);
    }
  }

  lemma {:induction false} Tight(s: string)
    requires s != "" && !IsSpace(s[0]) && !IsSpace(s[|s| - 1])
    ensures Strip(s) == s
  {
    TrimLeftIsSuffix(s, IsSpace);
    TrimRightIsPrefix(s, IsSpace);
  }

  predicate IsBlank(s: string) { forall i :: 0 <= i < |s| ==> IsSpace(s[i]) }

  /** Stripping takes the white space off both ends, and nothing else. */
  lemma {:induction false} StripAround(a: string, s: string, c: string)
    requires IsBlank(a) && IsBlank(c) && s != "" && !IsSpace(s[0]) && !IsSpace(s[|s| - 1])
    ensures Strip(a + s + c) == s
  {
    assert a + s + c == a + (s + c);
    TrimLeftAll(a, s + c, IsSpace);
    TrimRightAll(s, c, IsSpace);
  }

  /** The white space and the letters of ASCII. */
  lemma {:induction false} AsciiKinds(c: char)
    requires c as int < 128
    ensures IsSpace(c) <==>
            c == ' ' || c == '\t' || c == '\n' || c == '\r' || c == '\U{0b}' || c == '\U{0c}' ||
            c == '\U{1c}' || c == '\U{1d}' || c == '\U{1e}' || c == '\U{1f}'
    ensures LowerChar(c) != c <==> c in "ABCDEFGHIJKLMNOPQRSTUVWXYZ"
  {
  }

  /** The white space beyond ASCII. */
  lemma {:induction false} OtherSpaces(c: char)
    requires c as int >= 128
    ensures IsSpace(c) <==>
            c == '\U{85}' || c == '\U{a0}' || c == '\U{1680}' || '\U{2000}' <= c <= '\U{200a}' || c == '\U{2028}' ||
            c == '\U{2029}' || c == '\U{202f}' || c == '\U{205f}' || c == '\U{3000}'
  {
  }

  lemma {:induction false} LowerAlphabet()
    ensures Lower("ABCDEFGHIJKLMNOPQRSTUVWXYZ") == "abcdefghijklmnopqrstuvwxyz"
  {
  }
}
