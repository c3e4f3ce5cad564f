/** Names in the registry: from an official base image to its custom tag, and from the
    custom tag to the base and final images. */
module ImageTags {
  import opened Text

  /** Last path component, without the image tag. */
  function ExtractCustomTag(baseImage: string): string { BeforeFirst(AfterLast(baseImage, '/'), ':') }

  const ARCH_PREFIX := "sweb.eval.x86_64."
  const WRAPPED_REPOS := {"sphinx-doc"}

  predicate ShouldWrap(customTag: string) {
    var t := if ARCH_PREFIX <= customTag then customTag[|ARCH_PREFIX|..] else customTag;
    BeforeFirst(t, '_') in WRAPPED_REPOS
  }

  datatype Ref = Ref(repo: string, tag: string)

  function BaseRef(repo: string, hash: string, customTag: string): Ref {
    Ref(repo, hash + "-" + customTag)
  }

  function FinalRef(repo: string, sdk: string, hash: string, customTag: string, target: string): Ref {
    Ref(repo, sdk + "-" + hash + "-" + customTag + "-" + target)
  }

  /** The official image of an instance, `prefix/name:tag`, yields the instance's name. */
  lemma {:induction false} OfficialCustomTag(prefix: string, name: string, tag: string)
    requires !Has(name, '/') && !Has(name, ':') && !Has(tag, '/')
    ensures ExtractCustomTag(prefix + "/" + (name + ":" + tag)) == name
  {
    var last := name + ":" + tag;
    assert !Has(last, '/') by {
      assert forall i :: 0 <= i < |last| ==>
        last[i] == if i < |name| then name[i] else if i == |name| then ':' else tag[i - |name| - 1];
    }
    assert prefix + "/" + last == prefix + ['/'] + last;
    AfterLastOf(prefix, last, '/');
    assert last == name + [':'] + tag;
    BeforeFirstOf(name, tag, ':');
  }

  // ----- What is wrapped -----

  lemma {:induction false} FirstPart(s: string, name: string)
    requires !Has(name, '_')
    ensures BeforeFirst(s, '_') == name <==> s == name || name + "_" <= s
  {
    if s == name {
      NoUnderscore(name);
    } else if name + "_" <= s {
      var rest := s[|name| + 1..];
      assert s == name + ['_'] + rest;
      BeforeFirstOf(name, rest, '_');
    } else if BeforeFirst(s, '_') == name {
      BeforeFirstIsPart(s);
      assert false;
    }
  }

  lemma {:induction false} NoUnderscore(s: string)
    requires !Has(s, '_')
    ensures BeforeFirst(s, '_') == s
  {
    if s != "" {
      assert s[0] != '_';
      assert forall i :: 0 <= i < |s| - 1 ==> s[1..][i] == s[i + 1];
      NoUnderscore(s[1..]);
    }
  }

  lemma {:induction false} BeforeFirstIsPart(s: string)
    ensures BeforeFirst(s, '_') == s || BeforeFirst(s, '_') + "_" <= s
  {
    if s != "" && s[0] != '_' {
      BeforeFirstIsPart(s[1..]);
      assert s == [s[0]] + s[1..];
    }
  }

  lemma {:induction false} SphinxHasNoUnderscore()
    ensures !Has("sphinx-doc", '_')
  {
  }

  /** The custom tags that are wrapped: those of the sphinx-doc repository, with or without
      the architecture in front. */
  lemma {:induction false} WrappedTags(customTag: string)
    ensures ShouldWrap(customTag) <==>
            customTag == "sphinx-doc" || "sphinx-doc_" <= customTag ||
            customTag == "sweb.eval.x86_64.sphinx-doc" || "sweb.eval.x86_64.sphinx-doc_" <= customTag
  {
    SphinxHasNoUnderscore();
    var prefix, repo := "sweb.eval.x86_64.", "sphinx-doc";
    assert repo + "_" == "sphinx-doc_" && prefix + repo == "sweb.eval.x86_64.sphinx-doc" &&
           prefix + (repo + "_") == "sweb.eval.x86_64.sphinx-doc_";
    FirstPart(customTag, repo);
    if prefix <= customTag {
      var t := customTag[|prefix|..];
      assert customTag == prefix + t && customTag[1] == 'w' && repo[1] == 'p';
      FirstPart(t, repo);
      AfterPrefix(prefix, t, repo);
    }
  }

  lemma {:induction false} AfterPrefix(prefix: string, t: string, repo: string)
    ensures prefix + t == prefix + repo <==> t == repo
    ensures prefix + (repo + "_") <= prefix + t <==> repo + "_" <= t
  {
    var s := prefix + t;
    assert s[|prefix|..] == t && (prefix + repo)[|prefix|..] == repo;
    if prefix + (repo + "_") <= s {
      assert s[..|prefix| + |repo| + 1] == prefix + (repo + "_");
      assert t[..|repo| + 1] == s[..|prefix| + |repo| + 1][|prefix|..];
    }
    if repo + "_" <= t {
      assert s == prefix + (repo + "_") + t[|repo| + 1..];
    }
  }

  /** The custom tag of an official image is wrapped if and only if its repository is
      sphinx-doc. */
  lemma {:induction false} OfficialIsWrapped(prefix: string, repo: string, rest: string, tag: string)
    requires !Has(repo, '_') && !Has(repo, '/') && !Has(repo, ':')
    requires !Has(rest, '/') && !Has(rest, ':') && !Has(tag, '/')
    ensures var name := "sweb.eval.x86_64." + repo + "_" + rest;
            ExtractCustomTag(prefix + "/" + (name + ":" + tag)) == name && (ShouldWrap(name) <==> repo == "sphinx-doc")
  {
    var arch, name := "sweb.eval.x86_64.", "sweb.eval.x86_64." + repo + "_" + rest;
    NoneIn(arch, repo, rest, '/');
    NoneIn(arch, repo, rest, ':');
    OfficialCustomTag(prefix, name, tag);
    WrappedTags(name);
    SphinxHasNoUnderscore();
    assert name == arch + (repo + ['_'] + rest);
    SameRepo(repo, rest);
    AfterPrefix(arch, repo + ['_'] + rest, "sphinx-doc");
    assert arch + ("sphinx-doc" + "_") == "sweb.eval.x86_64.sphinx-doc_" && arch + "sphinx-doc" == "sweb.eval.x86_64.sphinx-doc";
    assert name[1] == 'w' && "sphinx-doc"[1] == 'p' && "sphinx-doc_"[1] == 'p';
  }

  /** The same without the architecture. */
  lemma {:induction false} PlainIsWrapped(repo: string, rest: string)
    requires !Has(repo, '_') && !("sweb.eval.x86_64." <= repo + "_" + rest)
    ensures ShouldWrap(repo + "_" + rest) <==> repo == "sphinx-doc"
  {
    SphinxHasNoUnderscore();
    assert repo + "_" + rest == repo + ['_'] + rest;
    SameRepo(repo, rest);
    WrappedTags(repo + "_" + rest);
    assert "sweb.eval.x86_64." <= "sweb.eval.x86_64.sphinx-doc" && "sweb.eval.x86_64." <= "sweb.eval.x86_64.sphinx-doc_";
  }

  lemma {:induction false} SameRepo(repo: string, rest: string)
    requires !Has(repo, '_')
    ensures var s := repo + ['_'] + rest;
            s != "sphinx-doc" && ("sphinx-doc" + "_" <= s <==> repo == "sphinx-doc")
  {
    var s := repo + ['_'] + rest;
    SphinxHasNoUnderscore();
    assert s[|repo|] == '_' && Has(s, '_');
    BeforeFirstOf(repo, rest, '_');
    FirstPart(s, "sphinx-doc");
  }

  lemma {:induction false} NoneIn(arch: string, repo: string, rest: string, c: char)
    requires arch == "sweb.eval.x86_64." && (c == '/' || c == ':') && !Has(repo, c) && !Has(rest, c)
    ensures !Has(arch + repo + "_" + rest, c)
  {
    HasSum(arch, repo, c);
    HasSum(arch + repo, "_", c);
    HasSum(arch + repo + "_", rest, c);
  }

  // ----- The names determine each other -----

  /** The parts that can be read off the two tags, when the two hashes have seven characters:
      a change of either gives other tags. */
  lemma {:induction false} TagParts(repo: string, sdk: string, hash: string, customTag: string, target: string)
    requires |sdk| == 7 && |hash| == 7
    ensures var b := BaseRef(repo, hash, customTag);
            b.repo == repo && b.tag[..7] == hash && b.tag[7] == '-' && b.tag[8..] == customTag
    ensures var f := FinalRef(repo, sdk, hash, customTag, target);
            f.repo == repo && |f.tag| == 17 + |customTag| + |target| &&
            f.tag[..7] == sdk && f.tag[7] == '-' && f.tag[8..15] == hash && f.tag[15] == '-' &&
            f.tag[16..16 + |customTag|] == customTag && f.tag[16 + |customTag|] == '-' && f.tag[17 + |customTag|..] == target
  {
    var t := FinalRef(repo, sdk, hash, customTag, target).tag;
    assert t == sdk + ("-" + (hash + ("-" + (customTag + ("-" + target)))));
  }

  lemma {:induction false} CancelPrefix(p: string, a: string, b: string)
    requires p + a == p + b
    ensures a == b
  {
    assert a == (p + a)[|p|..] && b == (p + b)[|p|..];
  }

  lemma {:induction false} CancelSuffix(a: string, b: string, s: string)
    requires a + s == b + s
    ensures a == b
  {
    assert |a| == |b|;
    assert a == (a + s)[..|a|] && b == (b + s)[..|b|];
  }

  /** Different custom tags have different base images and different final images. */
  lemma {:induction false} RefsAreInjective(repo: string, sdk: string, hash: string, target: string, a: string, b: string)
    requires a != b
    ensures BaseRef(repo, hash, a) != BaseRef(repo, hash, b)
    ensures FinalRef(repo, sdk, hash, a, target) != FinalRef(repo, sdk, hash, b, target)
  {
    var p, s := sdk + "-" + hash + "-", "-" + target;
    if hash + "-" + a == hash + "-" + b {
      CancelPrefix(hash + "-", a, b);
    }
    assert sdk + "-" + hash + "-" + a + "-" + target == (p + a) + s;
    assert sdk + "-" + hash + "-" + b + "-" + target == (p + b) + s;
    if (p + a) + s == (p + b) + s {
      CancelSuffix(p + a, p + b, s);
      CancelPrefix(p, a, b);
    }
  }
}
