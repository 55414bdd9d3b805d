// stack_versions.go parseImageRef: reading image references.
module ImageRef {
  import opened Seqs
  import opened SemVer
  import opened Text

  datatype ImageRef = ImageRef(registry: string, ns: string, repo: string, tag: string)

  predicate LooksLikeHost(first: string) {
    '.' in first || ':' in first || first == "localhost"
  }

  // The registry and the rest.  The first segment is a registry when it looks
  // like a host and something follows it.
  function SplitRegistry(r: string): (string, string) {
    var i := Index(r, '/');
    var first := r[..i];
    var rest := if i < |r| then r[i + 1..] else "";
    if rest != "" && LooksLikeHost(first) then (first, rest) else ("docker.io", r)
  }

  // The name and the tag after the last colon, unless a slash follows it.
  function SplitTag(path: string): (string, string) {
    var k := LastIndex(path, ':');
    if k < |path| && '/' !in path[k + 1..] then (path[..k], path[k + 1..]) else (path, "latest")
  }

  function SplitName(name: string): (string, string) {
    var j := Index(name, '/');
    if j < |name| then (name[..j], name[j + 1..]) else ("library", name)
  }

  function Named(registry: string, name: string, tag: string): Option<ImageRef> {
    if name == "" then None
    else
      var (ns, repo) := SplitName(name);
      if repo == "" || ns == "" then None else Some(ImageRef(registry, ns, repo, tag))
  }

  // A reference without blanks and digest
  function ParseBare(r: string): Option<ImageRef> {
    var (registry, path) := SplitRegistry(r);
    var (name, tag) := SplitTag(path);
    Named(registry, name, tag)
  }

  function ParseImageRef(ref: string): Option<ImageRef> {
    var r := TrimSpace(ref);
    if r == "" then None else ParseBare(r[..Index(r, '@')])
  }

  // What the plan and the pins write for a reference.
  function Render(ns: string, repo: string, tag: string): string {
    ns + "/" + repo + ":" + tag
  }

  // strings.EqualFold(ns, "selenwright")
  predicate VersionAware(ns: string) {
    EqualFoldWord(ns, "selenwright")
  }

  // What reading a reference guarantees about its parts.
  predicate Parts(ns: string, repo: string, tag: string) {
    && repo != "" && '/' !in ns && '/' !in tag && ':' !in tag
    && '@' !in ns && '@' !in repo && '@' !in tag
  }

  lemma TagParts(path: string)
    requires '@' !in path
    ensures var (name, tag) := SplitTag(path); '@' !in name && '@' !in tag && '/' !in tag && ':' !in tag
  {
    LastIndexAfter(path, ':');
  }

  lemma NameParts(name: string)
    requires '@' !in name
    ensures var (ns, repo) := SplitName(name); '@' !in ns && '@' !in repo && '/' !in ns
  {
    IndexAbsent(name, '/');
  }

  lemma ParsedParts(ref: string)
    requires ParseImageRef(ref).Some?
    ensures var r := ParseImageRef(ref).value; Parts(r.ns, r.repo, r.tag)
  {
    hide TrimSpace, SplitTag, SplitName;
    var r := TrimSpace(ref);
    var path := SplitRegistry(r[..Index(r, '@')]).1;
    assert '@' !in path;
    TagParts(path);
    NameParts(SplitTag(path).0);
  }

  lemma {:induction false} TrimRightKeepsFront(front: string, s: string)
    requires front != "" && !IsSpace(front[|front| - 1])
    ensures TrimRight(front + s) == front + TrimRight(s)
  {
    hide IsSpace;
    if s == "" {
      assert front + s == front;
    } else {
      assert (front + s)[..|front + s| - 1] == front + s[..|s| - 1];
      if IsSpace(s[|s| - 1]) {
        TrimRightKeepsFront(front, s[..|s| - 1]);
      }
    }
  }

  lemma {:induction false} TrimRightPart(s: string, c: char)
    requires c !in s
    ensures c !in TrimRight(s)
  {
    assert TrimRight(s) <= s;
  }

  // Reading a trimmed text: the blanks at the end of the tag are lost.
  lemma TrimmedParses(front: string, tag: string)
    requires front != "" && !IsSpace(front[0]) && front[|front| - 1] == ':'
    requires '@' !in front && '@' !in tag
    ensures ParseImageRef(front + tag) == ParseBare(front + TrimRight(tag))
  {
    hide ParseBare;
    var r := front + TrimRight(tag);
    TrimRightKeepsFront(front, tag);
    assert (front + tag)[0] == front[0];
    assert TrimSpace(front + tag) == r;
    TrimRightPart(tag, '@');
    IndexAbsent(r, '@');
    assert r[..|r|] == r;
  }

  lemma PathParses(ns: string, repo: string, tag: string)
    requires Parts(ns, repo, tag)
    ensures SplitTag(Render(ns, repo, tag)) == (ns + "/" + repo, tag) && SplitName(ns + "/" + repo) == (ns, repo)
  {
    var name := ns + "/" + repo;
    var r := name + ":" + tag;
    LastIndexConcat(name, ':', tag);
    assert r[..|name|] == name && r[|name| + 1..] == tag;
    IndexConcat(ns, '/', repo);
    assert name[..|ns|] == ns && name[|ns| + 1..] == repo;
  }

  lemma RegistryAt(first: string, rest: string)
    requires '/' !in first && rest != ""
    ensures SplitRegistry(first + "/" + rest) == if LooksLikeHost(first) then (first, rest) else ("docker.io", first + "/" + rest)
  {
    IndexConcat(first, '/', rest);
    assert (first + "/" + rest)[..|first|] == first && (first + "/" + rest)[|first| + 1..] == rest;
  }

  lemma BareParses(ns: string, repo: string, tag: string)
    requires Parts(ns, repo, tag) && ns != "" && !LooksLikeHost(ns)
    ensures ParseBare(Render(ns, repo, tag)) == Some(ImageRef("docker.io", ns, repo, tag))
  {
    hide SplitRegistry, SplitTag, SplitName, LooksLikeHost;
    RegistryAt(ns, repo + ":" + tag);
    assert Render(ns, repo, tag) == ns + "/" + (repo + ":" + tag);
    PathParses(ns, repo, tag);
  }

  lemma BareHosted(registry: string, ns: string, repo: string, tag: string)
    requires Parts(ns, repo, tag) && ns != "" && LooksLikeHost(registry) && '/' !in registry
    ensures ParseBare(registry + "/" + Render(ns, repo, tag)) == Some(ImageRef(registry, ns, repo, tag))
  {
    hide SplitRegistry, SplitTag, SplitName, LooksLikeHost;
    assert Render(ns, repo, tag) != "";
    RegistryAt(registry, Render(ns, repo, tag));
    PathParses(ns, repo, tag);
  }

  lemma TrimmedTag(ns: string, repo: string, tag: string)
    requires Parts(ns, repo, tag)
    ensures Parts(ns, repo, TrimRight(tag))
  {
    TrimRightPart(tag, '@');
    TrimRightPart(tag, '/');
    TrimRightPart(tag, ':');
  }

  // A rendered reference reads back as the same parts on Docker Hub, with the
  // blanks at the end of the tag lost, unless its namespace looks like a host.
  lemma RenderedParses(ns: string, repo: string, tag: string)
    requires Parts(ns, repo, tag) && ns != "" && !IsSpace(ns[0]) && !LooksLikeHost(ns)
    ensures ParseImageRef(Render(ns, repo, tag)) == Some(ImageRef("docker.io", ns, repo, TrimRight(tag)))
  {
    hide IsSpace, ParseImageRef, ParseBare, LooksLikeHost;
    var front := ns + "/" + repo + ":";
    TrimmedParses(front, tag);
    TrimmedTag(ns, repo, tag);
    BareParses(ns, repo, TrimRight(tag));
    assert front + tag == Render(ns, repo, tag) && front + TrimRight(tag) == Render(ns, repo, TrimRight(tag));
  }

  // With a registry in front it reads back with that registry.
  lemma HostedParses(registry: string, ns: string, repo: string, tag: string)
    requires Parts(ns, repo, tag) && ns != ""
    requires LooksLikeHost(registry) && '/' !in registry && '@' !in registry && !IsSpace(registry[0])
    ensures ParseImageRef(registry + "/" + Render(ns, repo, tag)) == Some(ImageRef(registry, ns, repo, TrimRight(tag)))
  {
    hide IsSpace, ParseImageRef, ParseBare;
    var front := registry + "/" + (ns + "/" + repo + ":");
    TrimmedParses(front, tag);
    TrimmedTag(ns, repo, tag);
    BareHosted(registry, ns, repo, TrimRight(tag));
    assert front + tag == registry + "/" + Render(ns, repo, tag);
    assert front + TrimRight(tag) == registry + "/" + Render(ns, repo, TrimRight(tag));
  }

  // A reference that was read, written out in full and read again is the same
  // exactly when its tag does not end in a blank.
  lemma ReadAgainExact(ref: string)
    requires ParseImageRef(ref).Some?
    ensures var r := ParseImageRef(ref).value;
            (ParseImageRef(r.registry + "/" + Render(r.ns, r.repo, r.tag)) == Some(r) <==>
               r.tag == "" || !IsSpace(r.tag[|r.tag| - 1]))
  {
    hide IsSpace;
    var r := ParseImageRef(ref).value;
    ParsedParts(ref);
    ParsedRegistry(ref);
    HostedParses(r.registry, r.ns, r.repo, r.tag);
  }

  lemma ParsedRegistry(ref: string)
    requires ParseImageRef(ref).Some?
    ensures var r := ParseImageRef(ref).value;
            && LooksLikeHost(r.registry) && '/' !in r.registry && '@' !in r.registry && !IsSpace(r.registry[0])
            && r.ns != ""
  {
    hide IsSpace, SplitTag, SplitName;
    assert !IsSpace("docker.io"[0]) by { DockerIsNotBlank(); }
    var r := TrimSpace(ref);
    var cut := r[..Index(r, '@')];
    if SplitRegistry(cut).1 != cut {
      var first := cut[..Index(cut, '/')];
      assert first != "" && first[0] == r[0];
    }
  }

  lemma DockerIsNotBlank()
    ensures !IsSpace('d')
  {
  }

  lemma VersionAwareIsNoHost(ns: string)
    requires VersionAware(ns)
    ensures |ns| == 11 && !IsSpace(ns[0]) && !LooksLikeHost(ns)
  {
    assert Fold(ns[0]) == 's';
    forall i | 0 <= i < |ns|
      ensures ns[i] != '.' && ns[i] != ':'
    {
      assert Fold(ns[i]) == "selenwright"[i];
    }
  }

  // So what the plan writes for a version-aware service reads back exactly
  // when the tag does not end in a blank.
  lemma RoundTripExact(ns: string, repo: string, tag: string)
    requires VersionAware(ns) && Parts(ns, repo, tag)
    ensures ParseImageRef(Render(ns, repo, tag)) == Some(ImageRef("docker.io", ns, repo, tag))
       <==> tag == "" || !IsSpace(tag[|tag| - 1])
  {
    VersionAwareIsNoHost(ns);
    RenderedParses(ns, repo, tag);
  }

  // ------------------------------------------------------------- defaults

  // A name without slash, colon, at sign or blanks
  predicate Simple(name: string) {
    && name != "" && '/' !in name && ':' !in name && '@' !in name
    && forall i :: 0 <= i < |name| ==> !IsSpace(name[i])
  }

  // A name alone is in Docker Hub's library, with the tag "latest".
  lemma NameAlone(repo: string)
    requires Simple(repo)
    ensures ParseImageRef(repo) == Some(ImageRef("docker.io", "library", repo, "latest"))
  {
    hide IsSpace;
    AbsentIndexes(repo);
    TrimSpaceFixes(repo);
    assert repo[..|repo|] == repo;
  }

  // With a tag behind it
  lemma NameAndTag(repo: string, tag: string)
    requires Simple(repo) && Simple(tag)
    ensures ParseImageRef(repo + ":" + tag) == Some(ImageRef("docker.io", "library", repo, tag))
  {
    hide IsSpace;
    var r := repo + ":" + tag;
    IndexAbsent(r, '@');
    IndexAbsent(r, '/');
    TrimSpaceFixes(r);
    LastIndexConcat(repo, ':', tag);
    assert r[..|r|] == r && r[..|repo|] == repo && r[|repo| + 1..] == tag;
    AbsentIndexes(repo);
  }

  // What stands before the first slash is the registry if it has a dot or a
  // colon in it or is "localhost", and the namespace on Docker Hub if not.
  lemma RegistryExactly(first: string, repo: string)
    requires first != "" && '/' !in first && '@' !in first && (forall i :: 0 <= i < |first| ==> !IsSpace(first[i]))
    requires Simple(repo)
    ensures ParseImageRef(first + "/" + repo) ==
              if '.' in first || ':' in first || first == "localhost" then Some(ImageRef(first, "library", repo, "latest"))
              else Some(ImageRef("docker.io", first, repo, "latest"))
  {
    hide IsSpace;
    var r := first + "/" + repo;
    IndexAbsent(r, '@');
    TrimSpaceFixes(r);
    assert r[..|r|] == r;
    RegistryAt(first, repo);
    AbsentIndexes(repo);
    if !LooksLikeHost(first) {
      LastIndexAfter(r, ':');
      IndexConcat(first, '/', repo);
      assert r[..|first|] == first && r[|first| + 1..] == repo;
    }
  }

  // A digest is cut off.
  lemma DigestDropped(r: string, digest: string)
    requires r != "" && '@' !in r && !IsSpace(r[0]) && !IsSpace(r[|r| - 1])
    requires digest == "" || !IsSpace(digest[|digest| - 1])
    ensures ParseImageRef(r + "@" + digest) == ParseImageRef(r)
  {
    hide IsSpace, ParseBare;
    var s := r + "@" + digest;
    assert s[0] == r[0] && !IsSpace(s[|s| - 1]) by { AtIsNotBlank(); }
    TrimSpaceFixes(s);
    TrimSpaceFixes(r);
    IndexConcat(r, '@', digest);
    IndexAbsent(r, '@');
    assert s[..|r|] == r && r[..|r|] == r;
  }

  lemma AtIsNotBlank()
    ensures !IsSpace('@')
  {
  }

  lemma AbsentIndexes(s: string)
    requires '/' !in s && ':' !in s && '@' !in s
    ensures Index(s, '/') == Index(s, '@') == LastIndex(s, ':') == |s|
  {
    IndexAbsent(s, '/');
    IndexAbsent(s, '@');
    LastIndexAfter(s, ':');
  }

  // The two spellings of each letter, and the two other characters that count
  const LETTERS := ["sS\U{017F}", "eE", "lL", "eE", "nN", "wW", "rR", "iI", "gG", "hH", "tT"]

  lemma VersionAwareExactly(ns: string)
    ensures VersionAware(ns) <==> |ns| == 11 && forall i :: 0 <= i < 11 ==> ns[i] in LETTERS[i]
  {
    if |ns| == 11 {
      forall i | 0 <= i < 11
        ensures Fold(ns[i]) == "selenwright"[i] <==> ns[i] in LETTERS[i]
      {
      }
    }
  }

  // ---------------------------------------------- tags that are versions

  predicate TagChar(c: char) {
    IsIdentChar(c) || c == '.' || c == '+'
  }

  predicate TagChars(s: string) {
    forall i :: 0 <= i < |s| ==> TagChar(s[i])
  }

  lemma {:induction false} JoinTagChars(parts: seq<string>)
    requires forall i :: 0 <= i < |parts| ==> TagChars(parts[i])
    ensures TagChars(Join(parts, '.'))
  {
    if |parts| > 1 {
      JoinTagChars(parts[1..]);
    }
  }

  lemma SplitTagChars(s: string)
    requires forall i :: 0 <= i < |Split(s, '.')| ==> TagChars(Split(s, '.')[i])
    ensures TagChars(s)
  {
    JoinSplit(s, '.');
    JoinTagChars(Split(s, '.'));
  }

  // A version is written with letters, digits, hyphens, dots and plus signs.
  lemma VersionChars(t: string)
    requires SemVer.Parse(t).Some?
    ensures TagChars(t)
  {
    var main := Main(t);
    var core := main[..Index(main, '-')];
    assert ValidParts(Nums(main), After(main, '-'), After(t[1..], '+'));
    SplitTagChars(core);
    if Index(main, '-') < |main| {
      SplitTagChars(main[|core| + 1..]);
    }
    TagCharsAround(main, |core|);
    if Index(t[1..], '+') < |t[1..]| {
      SplitTagChars(t[1..][|main| + 1..]);
    }
    TagCharsAround(t[1..], |main|);
    assert t == "v" + t[1..];
  }

  lemma TagCharsAround(s: string, i: nat)
    requires i <= |s| && TagChars(s[..i]) && (i < |s| ==> TagChar(s[i]) && TagChars(s[i + 1..]))
    ensures TagChars(s)
  {
    forall k | 0 <= k < |s|
      ensures TagChar(s[k])
    {
      assert k < i ==> s[k] == s[..i][k];
      assert i < k ==> s[k] == s[i + 1..][k - i - 1];
    }
  }

  // A published tag that is a version always reads back.
  lemma PublishedParts(tag: string)
    requires NormalizeTag(tag) != "" && TrimSpace(tag) == tag
    ensures '/' !in tag && ':' !in tag && '@' !in tag && !IsSpace(tag[|tag| - 1])
  {
    hide SemVer.Parse, Prefixed, TrimSpace, NormalizeTag, IsSpace;
    NormalizedParses(tag);
    VersionChars(Prefixed(tag));
    TrimSpaceFixes(tag);
    UnprefixedChars(tag);
  }

  lemma NormalizedParses(tag: string)
    requires NormalizeTag(tag) != "" && TrimSpace(tag) == tag
    ensures tag != "" && SemVer.Parse(Prefixed(tag)).Some?
  {
  }

  lemma UnprefixedChars(t: string)
    requires t != "" && TagChars(Prefixed(t))
    ensures TagChars(t)
  {
    if t[0] == 'v' {
      DotsDropped(t[1..]);
      assert t == "v" + t[1..];
    } else {
      assert Prefixed(t)[1..] == t;
    }
  }

  lemma {:induction false} DotsDropped(s: string)
    requires TagChars("v" + DropDots(s))
    ensures TagChars(s)
  {
    if s != "" && s[0] == '.' {
      DotsDropped(s[1..]);
      assert s == "." + s[1..];
    } else {
      assert ("v" + s)[1..] == s;
    }
  }
}
