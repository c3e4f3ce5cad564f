/** The custom tag of a base image: its Docker tag made clean and, if need be, short. */
module CustomTag {
  import opened Options
  import opened Text
  import ImageTags

  const MAX_LENGTH := 96
  const DIGEST_LENGTH := 12

  predicate Allowed(c: char) { 'a' <= c <= 'z' || '0' <= c <= '9' || c == '_' || c == '.' || c == '-' }

  predicate NotAllowed(c: char) { !Allowed(c) }

  predicate IsEdge(c: char) { c == '.' || c == '-' }

  predicate All(s: string, ok: char -> bool) { forall i :: 0 <= i < |s| ==> ok(s[i]) }

  /** Every run of other characters becomes one '-'. */
  function Sanitize(s: string): string
    decreases |s|
  {
    if s == "" then ""
    else if Allowed(s[0]) then [s[0]] + Sanitize(s[1..])
    else TrimLeftShrinks(s[1..], NotAllowed); "-" + Sanitize(TrimLeft(s[1..], NotAllowed))
  }

  lemma {:induction false} TrimLeftShrinks(s: string, drop: char -> bool)
    ensures |TrimLeft(s, drop)| <= |s|
  {
    if s != "" && drop(s[0]) {
      TrimLeftShrinks(s[1..], drop);
    }
  }

  function StripEdges(s: string): string { TrimRight(TrimLeft(s, IsEdge), IsEdge) }

  /** `lower` is the language's lower-casing and `digest` the first twelve hexadecimal
      digits of the SHA-1 hash; None is the error for an empty tag. */
  function ExtractCustomTag(lower: string -> string, digest: string -> string, baseImage: string): Option<string> {
    var tag := AfterLast(baseImage, ':');
    if tag == "" then None
    else
      var stripped := StripEdges(Sanitize(lower(tag)));
      var sanitized := if stripped == "" then digest(tag) else stripped;
      if |sanitized| <= MAX_LENGTH then Some(sanitized)
      else Some(TrimRight(Shortened(sanitized, digest(tag)), IsEdge) + "-" + digest(tag))
  }

  function Shortened(s: string, digest: string): string {
    var n := MAX_LENGTH - |digest| - 1;
    if 0 <= n <= |s| then s[..n] else s
  }

  // ----- Sanitizing -----

  lemma {:induction false} SanitizeIsAllowed(s: string)
    ensures All(Sanitize(s), Allowed)
    decreases |s|
  {
    if s != "" {
      if Allowed(s[0]) {
        SanitizeIsAllowed(s[1..]);
      } else {
        TrimLeftShrinks(s[1..], NotAllowed);
        SanitizeIsAllowed(TrimLeft(s[1..], NotAllowed));
      }
    }
  }

  lemma {:induction false} SanitizeKeeps(s: string)
    requires All(s, Allowed)
    ensures Sanitize(s) == s
  {
    if s != "" {
      SanitizeKeeps(s[1..]);
    }
  }

  /** A whole run in the middle becomes one '-'; what is allowed stays as it is. */
  lemma {:induction false} SanitizeRun(a: string, run: string, b: string)
    requires All(a, Allowed) && run != "" && All(run, NotAllowed) && (b == "" || Allowed(b[0]))
    ensures Sanitize(a + run + b) == a + "-" + Sanitize(b)
  {
    var s := a + run + b;
    if a == "" {
      assert s == run + b && s[1..] == run[1..] + b;
      TrimLeftAll(run[1..], b, NotAllowed);
    } else {
      assert s[1..] == a[1..] + run + b;
      SanitizeRun(a[1..], run, b);
    }
  }

  // ----- Trimming -----

  /** Ends that are neither '.' nor '-'. */
  predicate CleanEnds(s: string) { s != "" && !IsEdge(s[0]) && !IsEdge(s[|s| - 1]) }

  lemma {:induction false} StripEdgesCleans(s: string)
    requires All(s, Allowed)
    ensures All(StripEdges(s), Allowed) && (StripEdges(s) == "" || CleanEnds(StripEdges(s)))
  {
    TrimLeftIsSuffix(s, IsEdge);
    TrimRightIsPrefix(TrimLeft(s, IsEdge), IsEdge);
  }

  lemma {:induction false} StripEdgesKeeps(s: string)
    requires CleanEnds(s)
    ensures StripEdges(s) == s
  {
  }

  // ----- What the result is -----

  predicate IsHex(c: char) { '0' <= c <= '9' || 'a' <= c <= 'f' }

  ghost predicate IsDigest(digest: string -> string) {
    forall s :: |digest(s)| == DIGEST_LENGTH && All(digest(s), IsHex)
  }

  ghost predicate IsCustomTag(s: string) { |s| <= MAX_LENGTH && All(s, Allowed) && CleanEnds(s) }

  lemma {:induction false} ShortTag(prefix: string, digest: string)
    requires prefix != "" && All(prefix, Allowed) && !IsEdge(prefix[0]) && |prefix| <= MAX_LENGTH - DIGEST_LENGTH - 1
    requires |digest| == DIGEST_LENGTH && All(digest, IsHex)
    ensures IsCustomTag(prefix + "-" + digest)
  {
    var s := prefix + "-" + digest;
    assert s[0] == prefix[0] && s[|s| - 1] == digest[DIGEST_LENGTH - 1];
  }

  /** Every image has a custom tag except one whose Docker tag is empty, and the custom
      tag is never empty, at most 96 characters long, over the allowed characters, with
      no '.' or '-' at its ends, whatever the lower-casing does. */
  lemma {:induction false} ResultIsCustomTag(lower: string -> string, digest: string -> string, baseImage: string)
    requires IsDigest(digest)
    ensures ExtractCustomTag(lower, digest, baseImage).None? <==> baseImage == "" || baseImage[|baseImage| - 1] == ':'
    ensures ExtractCustomTag(lower, digest, baseImage).Some? ==> IsCustomTag(ExtractCustomTag(lower, digest, baseImage).value)
  {
    var tag := AfterLast(baseImage, ':');
    AfterLastEmpty(baseImage);
    var clean := Sanitize(lower(tag));
    var sanitized := StripEdges(clean);
    SanitizeIsAllowed(lower(tag));
    StripEdgesCleans(clean);
    assert |digest(tag)| == DIGEST_LENGTH && All(digest(tag), IsHex);
    if |sanitized| > MAX_LENGTH {
      var cut := Shortened(sanitized, digest(tag));
      TrimRightIsPrefix(cut, IsEdge);
      ShortTag(TrimRight(cut, IsEdge), digest(tag));
    }
  }

  lemma {:induction false} AfterLastEmpty(s: string)
    ensures AfterLast(s, ':') == "" <==> s == "" || s[|s| - 1] == ':'
  {
    if Has(s, ':') {
      AfterLastEmpty(s[1..]);
      if s[1..] == "" {
        assert s[0] == ':';
      }
    }
  }

  /** Lower-casing leaves text without letters to lower alone. */
  ghost predicate KeepsAllowed(lower: string -> string) {
    forall s :: All(s, Allowed) ==> lower(s) == s
  }

  lemma {:induction false} AfterLastColon(image: string, tag: string)
    requires All(tag, Allowed)
    ensures AfterLast(image + ":" + tag, ':') == tag && AfterLast(tag, ':') == tag
  {
    AfterLastOf(image, tag, ':');
    assert image + ":" + tag == image + [':'] + tag;
  }

  /** The custom tags are exactly the fixed points, with or without an image before them. */
  lemma {:induction false} CustomTagsAreFixed(lower: string -> string, digest: string -> string, image: string, tag: string)
    requires IsDigest(digest) && KeepsAllowed(lower)
    ensures ExtractCustomTag(lower, digest, tag) == Some(tag) <==> IsCustomTag(tag)
    ensures IsCustomTag(tag) ==> ExtractCustomTag(lower, digest, image + ":" + tag) == Some(tag)
  {
    ResultIsCustomTag(lower, digest, tag);
    if IsCustomTag(tag) {
      AfterLastColon(image, tag);
      SanitizeKeeps(tag);
      StripEdgesKeeps(tag);
    }
  }

  /** Extracting again changes nothing. */
  lemma {:induction false} ExtractTwice(lower: string -> string, digest: string -> string, baseImage: string)
    requires IsDigest(digest) && KeepsAllowed(lower)
    ensures var r := ExtractCustomTag(lower, digest, baseImage);
            r.Some? ==> ExtractCustomTag(lower, digest, r.value) == r
  {
    ResultIsCustomTag(lower, digest, baseImage);
    var r := ExtractCustomTag(lower, digest, baseImage);
    if r.Some? {
      CustomTagsAreFixed(lower, digest, "", r.value);
    }
  }

  // ----- Which tags are left whole -----

  /** Lower-case letters, digits, `_`, `.` and `-`, with neither of the last two at the ends. */
  ghost predicate IsClean(tag: string) {
    tag != "" &&
    (forall i :: 0 <= i < |tag| ==>
      'a' <= tag[i] <= 'z' || '0' <= tag[i] <= '9' || tag[i] == '_' || tag[i] == '.' || tag[i] == '-') &&
    tag[0] != '.' && tag[0] != '-' && tag[|tag| - 1] != '.' && tag[|tag| - 1] != '-'
  }

  /** From the cleaned tag of an image to its custom tag. */
  lemma {:induction false} ExtractCleaned(lower: string -> string, digest: string -> string, baseImage: string, tag: string, s: string)
    requires IsDigest(digest) && tag != "" && AfterLast(baseImage, ':') == tag
    requires s != "" && StripEdges(Sanitize(lower(tag))) == s
    ensures |digest(tag)| == 12
    ensures ExtractCustomTag(lower, digest, baseImage) ==
            Some(if |s| <= 96 then s else TrimRight(s[..83], IsEdge) + "-" + digest(tag))
  {
    assert |digest(tag)| == DIGEST_LENGTH;
  }

  lemma {:induction false} CleanText(s: string)
    requires IsClean(s)
    ensures StripEdges(Sanitize(s)) == s
  {
    SanitizeKeeps(s);
    StripEdgesKeeps(s);
  }

  /** A clean tag of at most 96 characters is its own custom tag, alone or after an image. */
  lemma {:induction false} CleanTagIsKept(lower: string -> string, digest: string -> string, image: string, tag: string)
    requires IsDigest(digest) && KeepsAllowed(lower) && IsClean(tag) && |tag| <= 96
    ensures ExtractCustomTag(lower, digest, tag) == Some(tag)
    ensures ExtractCustomTag(lower, digest, image + ":" + tag) == Some(tag)
  {
    CleanText(tag);
    AfterLastColon(image, tag);
    ExtractCleaned(lower, digest, tag, tag, tag);
    ExtractCleaned(lower, digest, image + ":" + tag, tag, tag);
  }

  /** What a longer tag keeps: its first 83 characters without the dots and dashes at their end. */
  ghost predicate IsStem(stem: string, tag: string) {
    stem != "" && |stem| <= 83 && stem <= tag && |tag| > 83 &&
    stem[|stem| - 1] != '.' && stem[|stem| - 1] != '-' &&
    forall i :: |stem| <= i < 83 ==> tag[i] == '.' || tag[i] == '-'
  }

  lemma {:induction false} StemOf(tag: string)
    requires IsClean(tag) && |tag| > 83
    ensures IsStem(TrimRight(tag[..83], IsEdge), tag)
  {
    var cut := tag[..83];
    var stem := TrimRight(cut, IsEdge);
    TrimRightIsPrefix(cut, IsEdge);
    TrimmedAreEdges(cut);
    assert stem <= cut && cut <= tag;
    forall i | |stem| <= i < 83 ensures tag[i] == '.' || tag[i] == '-' {
      assert IsEdge(cut[i]);
    }
  }

  /** A longer one keeps its stem, followed by `-` and the twelve characters of its digest. */
  lemma {:induction false} LongTagIsCut(lower: string -> string, digest: string -> string, image: string, tag: string)
    returns (stem: string)
    requires IsDigest(digest) && KeepsAllowed(lower) && IsClean(tag) && |tag| > 96
    ensures IsStem(stem, tag) && |digest(tag)| == 12
    ensures ExtractCustomTag(lower, digest, tag) == Some(stem + "-" + digest(tag))
    ensures ExtractCustomTag(lower, digest, image + ":" + tag) == Some(stem + "-" + digest(tag))
  {
    stem := TrimRight(tag[..83], IsEdge);
    CleanText(tag);
    StemOf(tag);
    AfterLastColon(image, tag);
    ExtractCleaned(lower, digest, tag, tag, tag);
    ExtractCleaned(lower, digest, image + ":" + tag, tag, tag);
  }

  lemma {:induction false} TrimmedAreEdges(s: string)
    ensures |TrimRight(s, IsEdge)| <= |s|
    ensures forall i :: |TrimRight(s, IsEdge)| <= i < |s| ==> IsEdge(s[i])
    decreases |s|
  {
    if s != "" && IsEdge(s[|s| - 1]) {
      TrimmedAreEdges(s[..|s| - 1]);
    }
  }

  /** Other tags are lower-cased first, and cut with the digest of the tag as it was. */
  lemma {:induction false} TagIsLowered(lower: string -> string, digest: string -> string, tag: string) returns (stem: string)
    requires IsDigest(digest) && tag != "" && !Has(tag, ':') && IsClean(lower(tag))
    ensures |lower(tag)| <= 96 ==> ExtractCustomTag(lower, digest, tag) == Some(lower(tag))
    ensures |lower(tag)| > 96 ==> IsStem(stem, lower(tag)) && ExtractCustomTag(lower, digest, tag) == Some(stem + "-" + digest(tag))
  {
    var s := lower(tag);
    CleanText(s);
    ExtractCleaned(lower, digest, tag, tag, s);
    stem := if |s| > 96 then TrimRight(s[..83], IsEdge) else "";
    if |s| > 96 { StemOf(s); }
  }

  /** If nothing is left of a tag when it is made clean, its digest stands for it. */
  lemma {:induction false} NothingLeftIsDigest(lower: string -> string, digest: string -> string, tag: string)
    requires IsDigest(digest) && tag != "" && !Has(tag, ':')
    requires forall i :: 0 <= i < |lower(tag)| ==> lower(tag)[i] == '.' || lower(tag)[i] == '-'
    ensures ExtractCustomTag(lower, digest, tag) == Some(digest(tag)) && |digest(tag)| == 12
  {
    var s := lower(tag);
    assert All(s, Allowed);
    SanitizeKeeps(s);
    TrimLeftIsSuffix(s, IsEdge);
    assert |digest(tag)| == 12;
  }

  // ----- Tags that share a custom tag -----

  function Cleaned(lower: string -> string, tag: string): string { StripEdges(Sanitize(lower(tag))) }

  /** The cleaned tag is too long and will be cut. */
  predicate IsCut(lower: string -> string, tag: string) { |Cleaned(lower, tag)| > MAX_LENGTH }

  /** What remains of a cut tag before its digest. */
  function Stem(lower: string -> string, tag: string): string
    requires IsCut(lower, tag)
  {
    TrimRight(Cleaned(lower, tag)[..MAX_LENGTH - DIGEST_LENGTH - 1], IsEdge)
  }

  /** What stands for an uncut tag: itself made clean, or its digest if nothing is left. */
  function Name(lower: string -> string, digest: string -> string, tag: string): string {
    if Cleaned(lower, tag) == "" then digest(tag) else Cleaned(lower, tag)
  }

  ghost predicate IsTag(tag: string) { tag != "" && !Has(tag, ':') }

  lemma {:induction false} CustomTagOf(lower: string -> string, digest: string -> string, tag: string)
    requires IsDigest(digest) && IsTag(tag)
    ensures ExtractCustomTag(lower, digest, tag) ==
            Some(if IsCut(lower, tag) then Stem(lower, tag) + "-" + digest(tag) else Name(lower, digest, tag))
  {
    assert |digest(tag)| == DIGEST_LENGTH;
  }

  lemma {:induction false} TagAndDigest(stem1: string, digest1: string, stem2: string, digest2: string)
    requires |digest1| == |digest2|
    ensures stem1 + "-" + digest1 == stem2 + "-" + digest2 <==> stem1 == stem2 && digest1 == digest2
  {
    var s1, s2 := stem1 + "-" + digest1, stem2 + "-" + digest2;
    if s1 == s2 {
      assert |s1| == |s2|;
      assert s1[..|stem1|] == stem1 && s2[..|stem2|] == stem2;
      assert s1[|stem1| + 1..] == digest1 && s2[|stem2| + 1..] == digest2;
    }
  }

  /** Two Docker tags share a custom tag exactly if both are cut and agree in stem and digest,
      or neither is cut and they have the same name, or the name of the one that is not cut
      happens to be the stem and digest of the other. */
  lemma {:induction false} SharedTag(lower: string -> string, digest: string -> string, tag1: string, tag2: string)
    requires IsDigest(digest) && IsTag(tag1) && IsTag(tag2)
    ensures ExtractCustomTag(lower, digest, tag1) == ExtractCustomTag(lower, digest, tag2) <==>
            if IsCut(lower, tag1) && IsCut(lower, tag2) then
              digest(tag1) == digest(tag2) && Stem(lower, tag1) == Stem(lower, tag2)
            else if IsCut(lower, tag1) then Name(lower, digest, tag2) == Stem(lower, tag1) + "-" + digest(tag1)
            else if IsCut(lower, tag2) then Name(lower, digest, tag1) == Stem(lower, tag2) + "-" + digest(tag2)
            else Name(lower, digest, tag1) == Name(lower, digest, tag2)
  {
    CustomTagOf(lower, digest, tag1);
    CustomTagOf(lower, digest, tag2);
    if IsCut(lower, tag1) && IsCut(lower, tag2) {
      TagAndDigest(Stem(lower, tag1), digest(tag1), Stem(lower, tag2), digest(tag2));
    }
  }

  /** Every custom tag is shared: by itself, and by itself followed by any dots and dashes. */
  lemma {:induction false} EveryTagIsShared(lower: string -> string, digest: string -> string, tag: string, edges: string)
    requires IsDigest(digest) && KeepsAllowed(lower) && IsCustomTag(tag) && All(edges, IsEdge)
    ensures IsTag(tag + edges) && ExtractCustomTag(lower, digest, tag + edges) == Some(tag)
  {
    var longer := tag + edges;
    assert IsTag(longer);
    SanitizeKeeps(longer);
    assert longer[0] == tag[0];
    TrimRightAll(tag, edges, IsEdge);
    CustomTagOf(lower, digest, longer);
  }

  /** A cut tag always shares its custom tag with one that is not cut. */
  lemma {:induction false} CutTagIsShared(lower: string -> string, digest: string -> string, tag: string) returns (other: string)
    requires IsDigest(digest) && KeepsAllowed(lower) && IsTag(tag) && IsCut(lower, tag)
    ensures IsTag(other) && !IsCut(lower, other)
    ensures ExtractCustomTag(lower, digest, other) == ExtractCustomTag(lower, digest, tag)
  {
    ResultIsCustomTag(lower, digest, tag);
    CustomTagOf(lower, digest, tag);
    other := ExtractCustomTag(lower, digest, tag).value;
    assert IsTag(other);
    ExtractTwice(lower, digest, tag);
    SanitizeKeeps(other);
    StripEdgesKeeps(other);
  }

  /** Two tags that are both cut share a custom tag only if their digests agree. */
  lemma {:induction false} CutTagsDiffer(lower: string -> string, digest: string -> string, tag1: string, tag2: string)
    requires IsDigest(digest) && IsTag(tag1) && IsTag(tag2) && IsCut(lower, tag1) && IsCut(lower, tag2)
    requires ExtractCustomTag(lower, digest, tag1) == ExtractCustomTag(lower, digest, tag2)
    ensures digest(tag1) == digest(tag2)
  {
    SharedTag(lower, digest, tag1, tag2);
  }

  // ----- The final image tag -----

  /** Section "Pulling manifests" of the OCI Distribution Specification:
      `[a-zA-Z0-9_][a-zA-Z0-9._-]{0,127}`. */
  predicate IsOciChar(c: char) { Allowed(c) || 'A' <= c <= 'Z' }

  predicate IsOciTag(s: string) { 1 <= |s| <= 128 && All(s, IsOciChar) && !IsEdge(s[0]) }

  lemma {:induction false} TargetText(target: string)
    requires target == "binary" || target == "binary-minimal" || target == "source" || target == "source-minimal"
    ensures |target| <= 14 && All(target, IsOciChar)
  {
  }

  /** The tag of a final image never exceeds 127 characters and fits the tag grammar. */
  lemma {:induction false} FinalTagFits(repo: string, sdk: string, hash: string, customTag: string, target: string)
    requires 1 <= |sdk| <= 7 && All(sdk, IsOciChar) && !IsEdge(sdk[0]) && |hash| == 7 && All(hash, IsHex)
    requires IsCustomTag(customTag)
    requires target == "binary" || target == "binary-minimal" || target == "source" || target == "source-minimal"
    ensures |ImageTags.FinalRef(repo, sdk, hash, customTag, target).tag| <= 127
    ensures IsOciTag(ImageTags.FinalRef(repo, sdk, hash, customTag, target).tag)
  {
    TargetText(target);
  }
}
