// Versions and their precedence: the tag grammar of golang.org/x/mod/semver
// (Semantic Versioning 2.0.0 with a leading "v" and short forms), and
// normalizeTag in stack_versions.go.
module SemVer {
  import opened Seqs
  import opened Text

  // Build metadata plays no part in precedence and is dropped on reading.
  datatype Version = Version(major: string, minor: string, patch: string, pre: seq<string>)

  // ------------------------------------------------------------- the grammar

  predicate IsNumber(s: string) {
    s != "" && AllDigits(s) && (s[0] == '0' ==> |s| == 1)
  }

  predicate IsIdentChar(c: char) {
    IsDigit(c) || 'a' <= c <= 'z' || 'A' <= c <= 'Z' || c == '-'
  }

  predicate IsIdent(s: string) {
    s != "" && forall i :: 0 <= i < |s| ==> IsIdentChar(s[i])
  }

  // A numeric pre-release identifier has no leading zero.
  predicate IsPreIdent(s: string) {
    IsIdent(s) && (AllDigits(s) ==> IsNumber(s))
  }

  predicate Valid(v: Version) {
    IsNumber(v.major) && IsNumber(v.minor) && IsNumber(v.patch)
    && forall i :: 0 <= i < |v.pre| ==> IsPreIdent(v.pre[i])
  }

  // What follows the first c, if there is one.
  function After(s: string, c: char): Option<string> {
    if Index(s, c) < |s| then Some(s[Index(s, c) + 1..]) else None
  }

  predicate ValidParts(nums: seq<string>, pre: Option<string>, build: Option<string>) {
    && |nums| <= 3
    && (forall i :: 0 <= i < |nums| ==> IsNumber(nums[i]))
    && (|nums| < 3 ==> pre.None? && build.None?)
    && (pre.Some? ==> forall i :: 0 <= i < |Split(pre.value, '.')| ==> IsPreIdent(Split(pre.value, '.')[i]))
    && (build.Some? ==> forall i :: 0 <= i < |Split(build.value, '.')| ==> IsIdent(Split(build.value, '.')[i]))
  }

  function Number(nums: seq<string>, i: nat): string {
    if i < |nums| then nums[i] else "0"
  }

  // The text between the "v" and the build metadata, and its two halves.
  function Main(t: string): string
    requires t != ""
  {
    t[1..][..Index(t[1..], '+')]
  }

  function Nums(main: string): (r: seq<string>)
    ensures r != []
  {
    Split(main[..Index(main, '-')], '.')
  }

  function PreIdents(pre: Option<string>): seq<string> {
    if pre.Some? then Split(pre.value, '.') else []
  }

  function ParseMain(main: string, build: Option<string>): (r: Option<Version>)
    ensures r.Some? ==> Valid(r.value)
  {
    var nums := Nums(main);
    var pre := After(main, '-');
    if !ValidParts(nums, pre, build) then None
    else Some(Version(nums[0], Number(nums, 1), Number(nums, 2), PreIdents(pre)))
  }

  // v MAJOR[.MINOR[.PATCH[-PRERELEASE][+BUILD]]]
  function Parse(t: string): (r: Option<Version>)
    ensures r.Some? ==> Valid(r.value)
  {
    if t == "" || t[0] != 'v' then None else ParseMain(Main(t), After(t[1..], '+'))
  }

  function Core(v: Version): string {
    v.major + "." + v.minor + "." + v.patch
  }

  function Print(v: Version): string {
    "v" + (Core(v) + PreText(v.pre))
  }

  // semver.Canonical: the text itself, less the build metadata or with the
  // missing numbers added.
  function Canonical(t: string): string {
    if Parse(t).None? then ""
    else if Index(t, '+') < |t| then t[..Index(t, '+')]
    else if |Nums(Main(t))| == 1 then t + ".0.0"
    else if |Nums(Main(t))| == 2 then t + ".0"
    else t
  }

  // ---------------------------------------------------- printing and reading

  lemma JoinThree(a: string, b: string, c: string)
    ensures Join([a, b, c], '.') == a + "." + b + "." + c
  {
    assert [a, b, c][1..] == [b, c] && [b, c][1..] == [c];
    assert Join([b, c], '.') == b + "." + c;
  }

  lemma {:induction false} JoinChars(parts: seq<string>, c: char)
    requires c != '.' && forall i :: 0 <= i < |parts| ==> c !in parts[i]
    ensures c !in Join(parts, '.')
  {
    if |parts| > 1 {
      JoinChars(parts[1..], c);
    }
  }

  lemma CoreSplits(v: Version)
    requires Valid(v)
    ensures Split(Core(v), '.') == [v.major, v.minor, v.patch]
    ensures '-' !in Core(v) && '+' !in Core(v)
  {
    var nums := [v.major, v.minor, v.patch];
    JoinThree(v.major, v.minor, v.patch);
    SplitJoin(nums, '.');
    JoinChars(nums, '-');
    JoinChars(nums, '+');
  }

  function PreText(pre: seq<string>): string {
    if pre == [] then "" else "-" + Join(pre, '.')
  }

  // Printing a version and reading it back gives the version.
  lemma ParsePrint(v: Version)
    requires Valid(v)
    ensures Parse(Print(v)) == Some(v)
  {
    var main := Core(v) + PreText(v.pre);
    NoPlus(v);
    NoBuild(main);
    MainParses(v);
    assert Print(v) == "v" + main;
  }

  lemma NoPlus(v: Version)
    requires Valid(v)
    ensures '+' !in Core(v) + PreText(v.pre)
  {
    CoreSplits(v);
    JoinChars(v.pre, '+');
  }

  lemma MainParses(v: Version)
    requires Valid(v)
    ensures ParseMain(Core(v) + PreText(v.pre), None) == Some(v)
  {
    MainReads(v);
    if v.pre != [] {
      SplitJoin(v.pre, '.');
    }
  }

  lemma NoBuild(main: string)
    requires '+' !in main
    ensures Main("v" + main) == main && After(("v" + main)[1..], '+').None?
  {
    assert ("v" + main)[1..] == main;
    IndexAbsent(main, '+');
  }

  lemma MainReads(v: Version)
    requires Valid(v)
    ensures var main := Core(v) + PreText(v.pre);
            Nums(main) == [v.major, v.minor, v.patch] && PreIdents(After(main, '-')) == v.pre
            && (After(main, '-').Some? <==> v.pre != [])
  {
    var main := Core(v) + PreText(v.pre);
    CoreSplits(v);
    if v.pre == [] {
      assert main == Core(v);
      IndexAbsent(main, '-');
      assert main[..|main|] == main;
    } else {
      var pre := Join(v.pre, '.');
      SplitJoin(v.pre, '.');
      assert main == Core(v) + ['-'] + pre;
      IndexConcat(Core(v), '-', pre);
      assert main[..|Core(v)|] == Core(v) && main[|Core(v)| + 1..] == pre;
    }
  }

  // Different versions print differently.
  lemma PrintInjective(v: Version, w: Version)
    requires Valid(v) && Valid(w) && Print(v) == Print(w)
    ensures v == w
  {
    ParsePrint(v);
    ParsePrint(w);
  }

  lemma PreSplit(main: string)
    ensures main == main[..Index(main, '-')] + PreText(PreIdents(After(main, '-')))
  {
    hide Split, Join, Index;
    var i := Index(main, '-');
    assert main == main[..i] + main[i..];
    if i < |main| {
      var rest := main[i + 1..];
      JoinSplit(rest, '.');
      assert main[i..] == ['-'] + rest;
    }
  }

  // A text with three numbers is the printed core and pre-release.
  lemma MainPrints(main: string)
    requires |Nums(main)| == 3
    ensures var nums := Nums(main);
            main == nums[0] + "." + nums[1] + "." + nums[2] + PreText(PreIdents(After(main, '-')))
  {
    var nums := Nums(main);
    PreSplit(main);
    JoinSplit(main[..Index(main, '-')], '.');
    JoinThree(nums[0], nums[1], nums[2]);
    assert nums == [nums[0], nums[1], nums[2]];
  }

  lemma ShortPrints(main: string)
    requires |Nums(main)| <= 2 && After(main, '-').None?
    ensures main == if |Nums(main)| == 1 then Nums(main)[0] else Nums(main)[0] + "." + Nums(main)[1]
  {
    var nums := Nums(main);
    assert main[..|main|] == main;
    JoinSplit(main, '.');
    if |nums| == 2 {
      assert nums[1..] == [nums[1]];
    }
  }

  lemma IndexTail(t: string, c: char)
    requires t != "" && t[0] != c
    ensures Index(t, c) == 1 + Index(t[1..], c)
    ensures t[..Index(t, c)] == [t[0]] + t[1..][..Index(t[1..], c)]
  {
  }

  lemma FullCanonical(t: string, v: Version)
    requires Parse(t) == Some(v) && |Nums(Main(t))| == 3
    ensures Canonical(t) == Print(v)
  {
    MainPrints(Main(t));
    IndexTail(t, '+');
    if Index(t, '+') == |t| {
      assert t == "v" + Main(t);
    }
  }

  lemma ShortParts(t: string, v: Version)
    requires t != "" && Parse(t) == Some(v) && |Nums(Main(t))| < 3
    ensures Index(t, '+') == |t| && t == "v" + Main(t) && After(Main(t), '-').None?
    ensures var nums := Nums(Main(t)); v == Version(nums[0], Number(nums, 1), "0", [])
  {
    hide Split;
    IndexTail(t, '+');
    assert t == ['v'] + t[1..];
  }

  lemma ShortCanonical(t: string, v: Version)
    requires t != "" && Parse(t) == Some(v) && |Nums(Main(t))| < 3
    ensures Canonical(t) == Print(v)
  {
    hide Split, Parse, Nums, Index, After, Print, Main;
    ShortParts(t, v);
    ShortPrints(Main(t));
    PrintIs(v);
    if |Nums(Main(t))| == 2 {
      assert "v" + (v.major + "." + v.minor + "." + "0" + "") == "v" + (v.major + "." + v.minor) + ".0";
    } else {
      assert "v" + (v.major + "." + "0" + "." + "0" + "") == "v" + v.major + ".0.0";
    }
  }

  // The canonical text is the printed version.
  lemma CanonicalPrints(t: string)
    requires Parse(t).Some?
    ensures Canonical(t) == Print(Parse(t).value)
    ensures Parse(Canonical(t)) == Parse(t)
  {
    var v := Parse(t).value;
    if |Nums(Main(t))| == 3 {
      FullCanonical(t, v);
    } else {
      ShortCanonical(t, v);
    }
    ParsePrint(v);
  }

  // -------------------------------------------------------- what is a version

  predicate IsBuild(b: string) {
    forall i :: 0 <= i < |Split(b, '.')| ==> IsIdent(Split(b, '.')[i])
  }

  // The texts of a version: its three numbers and its pre-release, build
  // metadata behind them, or fewer numbers where only zeros follow.
  predicate Writes(t: string, v: Version) {
    var pre := if v.pre == [] then "" else "-" + Join(v.pre, '.');
    var full := "v" + v.major + "." + v.minor + "." + v.patch + pre;
    || t == full
    || (full + "+" <= t && IsBuild(t[|full| + 1..]))
    || (v.pre == [] && v.patch == "0" && t == "v" + v.major + "." + v.minor)
    || (v.pre == [] && v.patch == "0" && v.minor == "0" && t == "v" + v.major)
  }

  // A text is read as a version exactly when it is one of its texts.
  lemma ParseExactly(t: string, v: Version)
    ensures Parse(t) == Some(v) <==> Valid(v) && Writes(t, v)
  {
    hide Parse, Core, Print;
    PrintIs(v);
    var core := v.major + "." + v.minor + "." + v.patch;
    assert "v" + (core + PreText(v.pre)) == "v" + core + PreText(v.pre);
    assert "v" + core == "v" + v.major + "." + v.minor + "." + v.patch;
    if Parse(t) == Some(v) {
      ParsedWrites(t, v);
    }
    if Valid(v) && Writes(t, v) {
      if t == Print(v) {
        ParsePrint(v);
      } else if Print(v) + "+" <= t && IsBuild(t[|Print(v)| + 1..]) {
        ParseBuild(v, t[|Print(v)| + 1..]);
        assert t == Print(v) + "+" + t[|Print(v)| + 1..];
      } else {
        ParseShort(v, t);
      }
    }
  }

  lemma ParsedWrites(t: string, v: Version)
    requires Parse(t) == Some(v)
    ensures || t == Print(v)
            || (Print(v) + "+" <= t && IsBuild(t[|Print(v)| + 1..]))
            || (v.pre == [] && v.patch == "0" && t == "v" + v.major + "." + v.minor)
            || (v.pre == [] && v.patch == "0" && v.minor == "0" && t == "v" + v.major)
  {
    hide Core, PreText;
    assert t == ['v'] + t[1..];
    if |Nums(Main(t))| < 3 {
      assert Main(t) == t[1..] && t == "v" + Main(t);
      ShortPrints(Main(t));
    } else {
      ParsedFull(t, v);
    }
  }

  lemma ParsedParts(t: string, v: Version)
    requires t != "" && Parse(t) == Some(v) && |Nums(Main(t))| == 3
    ensures t[0] == 'v' && v == Version(Nums(Main(t))[0], Nums(Main(t))[1], Nums(Main(t))[2], PreIdents(After(Main(t), '-')))
    ensures Index(t[1..], '+') < |t[1..]| ==> IsBuild(t[1..][Index(t[1..], '+') + 1..])
  {
    hide Split, Index;
  }

  lemma BuildBehind(front: string, rest: string, i: nat)
    requires i <= |rest| && (i < |rest| ==> rest[i] == '+') && front == "v" + rest[..i]
    ensures i == |rest| ==> ['v'] + rest == front
    ensures i < |rest| ==> front + "+" <= ['v'] + rest && (['v'] + rest)[|front| + 1..] == rest[i + 1..]
  {
    if i < |rest| {
      assert ['v'] + rest == front + "+" + rest[i + 1..];
    } else {
      assert rest[..i] == rest;
    }
  }

  lemma ParsedFull(t: string, v: Version)
    requires t != "" && Parse(t) == Some(v) && |Nums(Main(t))| == 3
    ensures t == Print(v) || (Print(v) + "+" <= t && IsBuild(t[|Print(v)| + 1..]))
  {
    hide Core, PreText, Split, Parse, Nums, Index, IsBuild, PreIdents, After, Print;
    ParsedParts(t, v);
    PrintedMain(t, v);
    BuildBehind(Print(v), t[1..], Index(t[1..], '+'));
    assert t == ['v'] + t[1..];
  }

  lemma PrintedMain(t: string, v: Version)
    requires t != "" && |Nums(Main(t))| == 3
    requires v == Version(Nums(Main(t))[0], Nums(Main(t))[1], Nums(Main(t))[2], PreIdents(After(Main(t), '-')))
    ensures Print(v) == "v" + Main(t)
  {
    hide Core, PreText, Split, Nums, Index, PreIdents, After, Print, Main;
    MainPrints(Main(t));
    PrintIs(v);
  }

  lemma PrintIs(v: Version)
    ensures Print(v) == "v" + (v.major + "." + v.minor + "." + v.patch + PreText(v.pre))
  {
  }

  lemma ParseBuild(v: Version, b: string)
    requires Valid(v) && IsBuild(b)
    ensures Parse(Print(v) + "+" + b) == Some(v)
  {
    hide Core, PreText;
    var main := Core(v) + PreText(v.pre);
    var t := Print(v) + "+" + b;
    NoPlus(v);
    MainReads(v);
    MainParses(v);
    assert t[1..] == main + ['+'] + b;
    IndexConcat(main, '+', b);
    assert t[1..][..|main|] == main && t[1..][|main| + 1..] == b;
  }

  lemma ParseShort(v: Version, t: string)
    requires Valid(v) && v.pre == [] && v.patch == "0"
    requires t == "v" + v.major + "." + v.minor || (v.minor == "0" && t == "v" + v.major)
    ensures Parse(t) == Some(v)
  {
    hide Parse, Join;
    if t == "v" + v.major + "." + v.minor {
      JoinTwo(v.major, v.minor);
      assert t == "v" + (v.major + "." + v.minor);
      ParseNumbers([v.major, v.minor]);
    } else {
      JoinOne(v.major);
      ParseNumbers([v.major]);
    }
  }

  lemma JoinOne(a: string)
    ensures Join([a], '.') == a
  {
  }

  lemma JoinTwo(a: string, b: string)
    ensures Join([a, b], '.') == a + "." + b
  {
    assert [a, b][1..] == [b];
  }

  lemma ParseNumbers(nums: seq<string>)
    requires 1 <= |nums| <= 2 && forall i :: 0 <= i < |nums| ==> IsNumber(nums[i])
    ensures Parse("v" + Join(nums, '.')) == Some(Version(nums[0], Number(nums, 1), "0", []))
  {
    hide Split, Join, Index;
    var main := Join(nums, '.');
    SplitJoin(nums, '.');
    JoinChars(nums, '+');
    JoinChars(nums, '-');
    NoBuild(main);
    IndexAbsent(main, '-');
    assert main[..|main|] == main;
  }

  // ------------------------------------------------------------ normalizeTag

  function DropDots(s: string): string {
    if s != "" && s[0] == '.' then DropDots(s[1..]) else s
  }

  // "v.1.0" becomes "v1.0", "1.0" becomes "v1.0".
  function Prefixed(s: string): string {
    if s != "" && s[0] == 'v' then "v" + DropDots(s[1..]) else "v" + s
  }

  // The canonical form of a published tag; empty when it is not a version.
  function NormalizeTag(tag: string): string {
    var t := TrimSpace(tag);
    if t == "" then "" else Canonical(Prefixed(t))
  }

  function TagVersion(tag: string): (r: Option<Version>)
    ensures r.Some? ==> Valid(r.value)
  {
    var t := TrimSpace(tag);
    if t == "" then None else Parse(Prefixed(t))
  }

  // A tag without "v", with it, and with dots behind it is the same version,
  // blanks around it or not.
  lemma SpellingsAlike(t: string, dots: string, before: string, after: string)
    requires t != "" && t[0] != 'v' && t[0] != '.' && !IsSpace(t[0]) && !IsSpace(t[|t| - 1])
    requires (forall i :: 0 <= i < |dots| ==> dots[i] == '.') && Blank(before) && Blank(after)
    ensures TagVersion(before + t + after) == Parse("v" + t)
    ensures TagVersion(before + ("v" + dots + t) + after) == Parse("v" + t)
  {
    hide Parse, TrimSpace, DropDots, IsSpace;
    var q := "v" + dots + t;
    TrimmedIs(before, t, after);
    VIsNotBlank();
    assert q[0] == 'v' && q[|q| - 1] == t[|t| - 1];
    TrimmedIs(before, q, after);
    assert q[1..] == dots + t;
    DotsDrop(dots, t);
  }

  lemma VIsNotBlank()
    ensures !IsSpace('v')
  {
  }

  lemma {:induction false} DotsDrop(dots: string, t: string)
    requires t != "" && t[0] != '.' && forall i :: 0 <= i < |dots| ==> dots[i] == '.'
    ensures DropDots(dots + t) == t
  {
    if dots == "" {
      assert dots + t == t;
    } else {
      DotsDrop(dots[1..], t);
      assert (dots + t)[1..] == dots[1..] + t;
    }
  }

  lemma NormalizePrints(tag: string)
    ensures NormalizeTag(tag) == if TagVersion(tag).Some? then Print(TagVersion(tag).value) else ""
  {
    if TagVersion(tag).Some? {
      CanonicalPrints(Prefixed(TrimSpace(tag)));
    }
  }

  // The canonical form spelled out
  lemma NormalizeExactly(tag: string)
    ensures NormalizeTag(tag) ==
              match TagVersion(tag)
              case None => ""
              case Some(v) =>
                "v" + (v.major + "." + v.minor + "." + v.patch + (if v.pre == [] then "" else "-" + Join(v.pre, '.')))
  {
    hide NormalizeTag, TagVersion, Print;
    NormalizePrints(tag);
    if TagVersion(tag).Some? {
      PrintIs(TagVersion(tag).value);
    }
  }

  // A printed version has no blanks at its ends and a digit after the "v".
  lemma PrintEnds(v: Version)
    requires Valid(v)
    ensures TrimSpace(Print(v)) == Print(v) && Prefixed(Print(v)) == Print(v)
  {
    PrintStarts(v);
    LastIsIdentChar(v);
    LastOfSum("v", Core(v) + PreText(v.pre));
    var s := Print(v);
    assert !IsSpace(s[0]) && !IsSpace(s[|s| - 1]);
    TrimSpaceFixes(s);
  }

  lemma PrintStarts(v: Version)
    requires Valid(v)
    ensures Print(v)[0] == 'v' && Prefixed(Print(v)) == Print(v)
  {
    var main := Core(v) + PreText(v.pre);
    assert main[0] == v.major[0];
    assert Print(v)[1..] == main;
    assert DropDots(main) == main;
  }

  function Last(s: string): char
    requires s != ""
  {
    s[|s| - 1]
  }

  lemma LastOfSum(a: string, b: string)
    requires b != ""
    ensures Last(a + b) == Last(b)
  {
  }

  lemma LastIsIdentChar(v: Version)
    requires Valid(v)
    ensures IsIdentChar(Last(Core(v) + PreText(v.pre)))
  {
    if v.pre == [] {
      assert Core(v) + PreText(v.pre) == Core(v);
      LastOfSum(v.major + "." + v.minor + ".", v.patch);
    } else {
      JoinLast(v.pre);
      LastOfSum("-", Join(v.pre, '.'));
      LastOfSum(Core(v), PreText(v.pre));
    }
  }

  lemma {:induction false} JoinLast(parts: seq<string>)
    requires parts != [] && parts[|parts| - 1] != ""
    ensures Join(parts, '.') != "" && Last(Join(parts, '.')) == Last(parts[|parts| - 1])
  {
    if |parts| > 1 {
      JoinLast(parts[1..]);
      LastOfSum(parts[0] + ".", Join(parts[1..], '.'));
    }
  }

  // Normalizing twice changes nothing, and two tags normalize alike exactly
  // when they name the same version.
  lemma NormalizeIdempotent(tag: string)
    ensures NormalizeTag(NormalizeTag(tag)) == NormalizeTag(tag)
    ensures TagVersion(tag).Some? ==> TagVersion(NormalizeTag(tag)) == TagVersion(tag)
    ensures NormalizeTag(tag) != "" ==> Parse(NormalizeTag(tag)) == TagVersion(tag)
  {
    NormalizePrints(tag);
    if TagVersion(tag).Some? {
      var v := TagVersion(tag).value;
      PrintEnds(v);
      ParsePrint(v);
      NormalizePrints(Print(v));
    }
  }

  lemma NormalizeAlike(a: string, b: string)
    requires TagVersion(a).Some? && TagVersion(b).Some?
    ensures NormalizeTag(a) == NormalizeTag(b) <==> TagVersion(a) == TagVersion(b)
  {
    NormalizePrints(a);
    NormalizePrints(b);
    if NormalizeTag(a) == NormalizeTag(b) {
      PrintInjective(TagVersion(a).value, TagVersion(b).value);
    }
  }

  lemma NormalizeTrimmed(tag: string)
    ensures NormalizeTag(TrimSpace(tag)) == NormalizeTag(tag)
  {
    TrimSpaceIdempotent(tag);
  }

  // --------------------------------------------------------------- precedence

  function Sign(less: bool): int {
    if less then -1 else 1
  }

  // compareInt: the shorter digit string is the smaller number.
  function CompareNumber(x: string, y: string): int {
    if x == y then 0
    else if |x| != |y| then Sign(|x| < |y|)
    else Sign(StrLe(x, y))
  }

  function CompareIdent(x: string, y: string): int {
    if x == y then 0
    else if AllDigits(x) != AllDigits(y) then Sign(AllDigits(x))
    else if AllDigits(x) then CompareNumber(x, y)
    else Sign(StrLe(x, y))
  }

  // The first difference decides; a longer list wins over its prefix.
  function CompareIdents(x: seq<string>, y: seq<string>): int {
    if x == [] && y == [] then 0
    else if x == [] then -1
    else if y == [] then 1
    else if CompareIdent(x[0], y[0]) != 0 then CompareIdent(x[0], y[0])
    else CompareIdents(x[1..], y[1..])
  }

  // A pre-release comes before the release.
  function ComparePre(x: seq<string>, y: seq<string>): int {
    if x == [] || y == [] then (if x == y then 0 else Sign(x != [])) else CompareIdents(x, y)
  }

  function Then(a: int, b: int): int {
    if a != 0 then a else b
  }

  function Compare(v: Version, w: Version): int {
    Then(CompareNumber(v.major, w.major),
      Then(CompareNumber(v.minor, w.minor),
        Then(CompareNumber(v.patch, w.patch), ComparePre(v.pre, w.pre))))
  }

  lemma NumberLaws(x: string, y: string)
    ensures CompareNumber(x, y) == -CompareNumber(y, x)
    ensures CompareNumber(x, y) == 0 <==> x == y
  {
    StrLeTotal(x, y);
  }

  lemma NumberTransitive(x: string, y: string, z: string)
    requires CompareNumber(x, y) <= 0 && CompareNumber(y, z) <= 0
    ensures CompareNumber(x, z) <= 0
  {
    if x != y && y != z && |x| == |y| == |z| {
      StrLeTransitive(x, y, z);
    }
  }

  lemma IdentLaws(x: string, y: string)
    ensures CompareIdent(x, y) == -CompareIdent(y, x)
    ensures CompareIdent(x, y) == 0 <==> x == y
  {
    StrLeTotal(x, y);
    NumberLaws(x, y);
  }

  lemma IdentTransitive(x: string, y: string, z: string)
    requires CompareIdent(x, y) <= 0 && CompareIdent(y, z) <= 0
    ensures CompareIdent(x, z) <= 0
  {
    if x != y && y != z && AllDigits(x) == AllDigits(y) == AllDigits(z) {
      if AllDigits(x) {
        NumberTransitive(x, y, z);
      } else {
        StrLeTransitive(x, y, z);
      }
    }
  }

  lemma {:induction false} IdentsLaws(x: seq<string>, y: seq<string>)
    ensures CompareIdents(x, y) == -CompareIdents(y, x)
    ensures CompareIdents(x, y) == 0 <==> x == y
  {
    if x != [] && y != [] {
      IdentLaws(x[0], y[0]);
      IdentsLaws(x[1..], y[1..]);
      assert x == [x[0]] + x[1..] && y == [y[0]] + y[1..];
    }
  }

  lemma {:induction false} IdentsTransitive(x: seq<string>, y: seq<string>, z: seq<string>)
    requires CompareIdents(x, y) <= 0 && CompareIdents(y, z) <= 0
    ensures CompareIdents(x, z) <= 0
  {
    if x != [] && y != [] && z != [] {
      IdentLaws(x[0], y[0]);
      IdentLaws(y[0], z[0]);
      IdentLaws(x[0], z[0]);
      IdentTransitive(x[0], y[0], z[0]);
      if x[0] == y[0] == z[0] {
        IdentsTransitive(x[1..], y[1..], z[1..]);
      }
    }
  }

  lemma PreLaws(x: seq<string>, y: seq<string>)
    ensures ComparePre(x, y) == -ComparePre(y, x)
    ensures ComparePre(x, y) == 0 <==> x == y
  {
    IdentsLaws(x, y);
  }

  lemma PreTransitive(x: seq<string>, y: seq<string>, z: seq<string>)
    requires ComparePre(x, y) <= 0 && ComparePre(y, z) <= 0
    ensures ComparePre(x, z) <= 0
  {
    if x != [] && y != [] && z != [] {
      IdentsTransitive(x, y, z);
    }
  }

  // Precedence is a total order on versions.
  lemma CompareLaws(v: Version, w: Version)
    ensures Compare(v, w) == -Compare(w, v)
    ensures Compare(v, w) == 0 <==> v == w
  {
    NumberLaws(v.major, w.major);
    NumberLaws(v.minor, w.minor);
    NumberLaws(v.patch, w.patch);
    PreLaws(v.pre, w.pre);
  }

  lemma CompareTransitive(u: Version, v: Version, w: Version)
    requires Compare(u, v) <= 0 && Compare(v, w) <= 0
    ensures Compare(u, w) <= 0
  {
    if u.major != v.major || v.major != w.major {
      NumberStrict(u.major, v.major, w.major);
    } else if u.minor != v.minor || v.minor != w.minor {
      NumberStrict(u.minor, v.minor, w.minor);
    } else if u.patch != v.patch || v.patch != w.patch {
      NumberStrict(u.patch, v.patch, w.patch);
    } else {
      PreTransitive(u.pre, v.pre, w.pre);
    }
  }

  lemma NumberStrict(x: string, y: string, z: string)
    requires CompareNumber(x, y) <= 0 && CompareNumber(y, z) <= 0 && (x != y || y != z)
    ensures CompareNumber(x, z) < 0
  {
    NumberTransitive(x, y, z);
    NumberLaws(x, y);
    NumberLaws(x, z);
    NumberLaws(y, z);
  }

  // ------------------------------- comparing digit strings compares numbers

  lemma Tenfold(d: int, p: int, v: int)
    ensures 10 * (d * p + v) == d * (10 * p) + 10 * v
  {
  }

  lemma {:induction false} ValueFirst(s: string)
    requires AllDigits(s) && s != ""
    ensures Value(s) == (s[0] as int - '0' as int) * Power(|s| - 1) + Value(s[1..])
  {
    if |s| > 1 {
      var n := |s| - 1;
      ValueFirst(s[..n]);
      Tenfold(s[0] as int - '0' as int, Power(n - 1), Value(s[..n][1..]));
      assert s[1..][..n - 1] == s[..n][1..];
    }
  }

  lemma Scaled(a: int, b: int, p: nat)
    requires a < b
    ensures a * p + p <= b * p
  {
    assert a * p + p == (a + 1) * p;
  }

  lemma {:induction false} ValueOrder(x: string, y: string)
    requires AllDigits(x) && AllDigits(y) && |x| == |y|
    ensures x != y && StrLe(x, y) ==> Value(x) < Value(y)
  {
    if x != "" && x != y && StrLe(x, y) {
      ValueFirst(x);
      ValueFirst(y);
      ValueBounds(x[1..]);
      if x[0] == y[0] {
        assert x == [x[0]] + x[1..] && y == [y[0]] + y[1..];
        ValueOrder(x[1..], y[1..]);
      } else {
        Scaled(x[0] as int - '0' as int, y[0] as int - '0' as int, Power(|x| - 1));
      }
    }
  }

  // Section 11 of Semantic Versioning 2.0.0 compares these fields as numbers.
  lemma CompareNumberIsNumeric(x: string, y: string)
    requires IsNumber(x) && IsNumber(y)
    ensures CompareNumber(x, y) < 0 <==> Value(x) < Value(y)
    ensures CompareNumber(x, y) == 0 <==> Value(x) == Value(y)
  {
    NumberLaws(x, y);
    StrLeTotal(x, y);
    if |x| == |y| {
      ValueOrder(x, y);
      ValueOrder(y, x);
    } else if |x| < |y| {
      ShorterIsLess(x, y);
    } else {
      ShorterIsLess(y, x);
    }
  }

  lemma ShorterIsLess(x: string, y: string)
    requires IsNumber(x) && IsNumber(y) && |x| < |y|
    ensures Value(x) < Value(y)
  {
    ValueBounds(x);
    ValueBounds(y);
    PowerMonotone(|x|, |y| - 1);
  }

  // ----------------------- precedence as section 11 of SemVer 2.0.0 states it

  // Numeric identifiers by their number, below all others; those by their text.
  predicate IdentBelow(x: string, y: string) {
    if AllDigits(x) && AllDigits(y) then Value(x) < Value(y)
    else if AllDigits(x) || AllDigits(y) then AllDigits(x)
    else Below(x, y)
  }

  // The first identifier in which they differ is lower, or x is the start of y.
  predicate IdentsBelow(x: seq<string>, y: seq<string>) {
    exists k: nat :: k <= |x| && k < |y| && x[..k] == y[..k] && (k == |x| || (x[k] != y[k] && IdentBelow(x[k], y[k])))
  }

  // A pre-release is below its release; two are compared identifier by
  // identifier.
  predicate PreBelow(x: seq<string>, y: seq<string>) {
    x != [] && (y == [] || IdentsBelow(x, y))
  }

  predicate Lower(v: Version, w: Version)
    requires Valid(v) && Valid(w)
  {
    || Value(v.major) < Value(w.major)
    || (Value(v.major) == Value(w.major) && Value(v.minor) < Value(w.minor))
    || (Value(v.major) == Value(w.major) && Value(v.minor) == Value(w.minor) && Value(v.patch) < Value(w.patch))
    || (Value(v.major) == Value(w.major) && Value(v.minor) == Value(w.minor) && Value(v.patch) == Value(w.patch)
        && PreBelow(v.pre, w.pre))
  }

  lemma IdentExactly(x: string, y: string)
    requires IsPreIdent(x) && IsPreIdent(y)
    ensures CompareIdent(x, y) < 0 <==> x != y && IdentBelow(x, y)
  {
    StrLeExact(x, y);
    if AllDigits(x) && AllDigits(y) {
      CompareNumberIsNumeric(x, y);
    }
  }

  lemma IdentsBelowTails(x: seq<string>, y: seq<string>)
    requires x != [] && y != [] && x[0] == y[0]
    ensures IdentsBelow(x, y) <==> IdentsBelow(x[1..], y[1..])
  {
    hide IdentBelow;
    if IdentsBelow(x, y) {
      var k: nat :| k <= |x| && k < |y| && x[..k] == y[..k] && (k == |x| || (x[k] != y[k] && IdentBelow(x[k], y[k])));
      PrefixTails(x, y, k - 1);
    }
    if IdentsBelow(x[1..], y[1..]) {
      var p, q := x[1..], y[1..];
      var k: nat :| k <= |p| && k < |q| && p[..k] == q[..k] && (k == |p| || (p[k] != q[k] && IdentBelow(p[k], q[k])));
      PrefixTails(x, y, k);
    }
  }

  lemma HeadOfPrefix(x: seq<string>, k: nat)
    requires 0 < k <= |x|
    ensures x[..k][0] == x[0]
  {
  }

  lemma IdentsBelowHeads(x: seq<string>, y: seq<string>)
    requires x != [] && y != [] && x[0] != y[0]
    ensures IdentsBelow(x, y) <==> IdentBelow(x[0], y[0])
  {
    hide IdentBelow;
    if IdentsBelow(x, y) {
      var k: nat :| k <= |x| && k < |y| && x[..k] == y[..k] && (k == |x| || (x[k] != y[k] && IdentBelow(x[k], y[k])));
      if k > 0 {
        HeadOfPrefix(x, k);
        HeadOfPrefix(y, k);
        assert false;
      }
    }
    assert x[..0] == y[..0];
  }

  lemma {:induction false} IdentsExactly(x: seq<string>, y: seq<string>)
    requires forall i :: 0 <= i < |x| ==> IsPreIdent(x[i])
    requires forall i :: 0 <= i < |y| ==> IsPreIdent(y[i])
    ensures CompareIdents(x, y) < 0 <==> IdentsBelow(x, y)
  {
    hide CompareIdent, IdentBelow, IsPreIdent;
    if x == [] && y != [] {
      assert x[..0] == y[..0];
    } else if x != [] && y != [] {
      IdentExactly(x[0], y[0]);
      IdentLaws(x[0], y[0]);
      if x[0] == y[0] {
        IdentsExactly(x[1..], y[1..]);
        IdentsBelowTails(x, y);
      } else {
        IdentsBelowHeads(x, y);
      }
    }
  }

  // Compare is that precedence, in every field.
  lemma PrecedenceExactly(v: Version, w: Version)
    requires Valid(v) && Valid(w)
    ensures Compare(v, w) < 0 <==> Lower(v, w)
    ensures Compare(v, w) > 0 <==> Lower(w, v)
  {
    hide CompareNumber, IsNumber;
    CompareNumberIsNumeric(v.major, w.major);
    CompareNumberIsNumeric(v.minor, w.minor);
    CompareNumberIsNumeric(v.patch, w.patch);
    CompareNumberIsNumeric(w.major, v.major);
    CompareNumberIsNumeric(w.minor, v.minor);
    CompareNumberIsNumeric(w.patch, v.patch);
    PreExactly(v.pre, w.pre);
    PreExactly(w.pre, v.pre);
    CompareLaws(v, w);
  }

  lemma PreExactly(x: seq<string>, y: seq<string>)
    requires forall i :: 0 <= i < |x| ==> IsPreIdent(x[i])
    requires forall i :: 0 <= i < |y| ==> IsPreIdent(y[i])
    ensures ComparePre(x, y) < 0 <==> PreBelow(x, y)
  {
    IdentsExactly(x, y);
  }
}
