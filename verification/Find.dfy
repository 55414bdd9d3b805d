// config/config.go Find: choosing a browser for a requested name and version.
// The order in which a loop visits a map's keys is a parameter.
module Find {
  import opened Seqs
  import opened Text

  datatype Browser = Browser(protocol: string, image: string)

  // A catalog entry may be nil.
  datatype Versions = Versions(default: string, versions: map<string, Option<Browser>>)

  datatype Answer = Answer(browser: Option<Browser>, version: string, ok: bool)

  const MAX_INT: int := 0x7FFF_FFFF_FFFF_FFFF

  predicate IsPlaywright(b: Option<Browser>) {
    b.Some? && EqualFoldWord(b.value.protocol, "playwright")
  }

  // The two spellings of each letter, and the other character that counts
  const LETTERS := ["pP", "lL", "aA", "yY", "wW", "rR", "iI", "gG", "hH", "tT"]

  lemma PlaywrightExactly(b: Browser)
    ensures IsPlaywright(Some(b)) <==> |b.protocol| == 10 && forall i :: 0 <= i < 10 ==> b.protocol[i] in LETTERS[i]
    ensures !IsPlaywright(None)
  {
    if |b.protocol| == 10 {
      forall i | 0 <= i < 10
        ensures Fold(b.protocol[i]) == "playwright"[i] <==> b.protocol[i] in LETTERS[i]
      {
      }
    }
  }

  predicate Fits(n: int) {
    -MAX_INT - 1 <= n <= MAX_INT
  }

  // strconv.Atoi: a sign, then digits only, within 64 bits.
  function Atoi(s: string): (n: Option<int>)
    ensures n.Some? ==> Fits(n.value)
  {
    var digits := if s != "" && (s[0] == '+' || s[0] == '-') then s[1..] else s;
    if digits == "" || !AllDigits(digits) then None
    else
      var n: int := if s[0] == '-' then -(Value(digits) as int) else Value(digits);
      if Fits(n) then Some(n) else None
  }

  // The first two fields as numbers
  function Numbers(version: string): Option<(int, int)> {
    var segments := Split(version, '.');
    if |segments| < 2 || Atoi(segments[0]).None? || Atoi(segments[1]).None? then None
    else Some((Atoi(segments[0]).value, Atoi(segments[1]).value))
  }

  // One field is too few, and more than two change nothing.
  lemma NumbersExact(a: string, b: string, rest: string)
    requires '.' !in a && '.' !in b
    ensures Numbers(a) == None
    ensures Numbers(a + "." + b) ==
              if Atoi(a).Some? && Atoi(b).Some? then Some((Atoi(a).value, Atoi(b).value)) else None
    ensures Numbers(a + "." + b + "." + rest) == Numbers(a + "." + b)
  {
    hide Atoi;
    SplitNoSep(a, '.');
    SplitNoSep(b, '.');
    SplitConcat(a, '.', b);
    SplitConcat(a, '.', b + "." + rest);
    SplitConcat(b, '.', rest);
    assert a + "." + b + "." + rest == a + ['.'] + (b + "." + rest);
  }

  // What a field must be: digits that fit, a sign in front of them or not.
  lemma AtoiExact(digits: string)
    requires AllDigits(digits)
    ensures Atoi(digits) == if digits != "" && Value(digits) <= MAX_INT then Some(Value(digits)) else None
    ensures Atoi("+" + digits) == Atoi(digits)
    ensures Atoi("-" + digits) == if digits != "" && Value(digits) <= MAX_INT + 1 then Some(-(Value(digits) as int)) else None
  {
    assert ("+" + digits)[1..] == digits && ("-" + digits)[1..] == digits;
  }

  // Nothing else is a number.
  lemma AtoiOnly(s: string)
    requires Atoi(s).Some?
    ensures AllDigits(s) || ((s[0] == '+' || s[0] == '-') && AllDigits(s[1..]))
  {
  }

  function PrintPair(major: int, minor: int): string {
    PrintInt(major) + "." + PrintInt(minor)
  }

  // playwrightMajorMinor: the pair printed again
  function MajorMinor(version: string): Option<string> {
    if Numbers(version).None? then None else Some(PrintPair(Numbers(version).value.0, Numbers(version).value.1))
  }

  lemma AtoiPrint(n: int)
    requires Fits(n)
    ensures Atoi(PrintInt(n)) == Some(n) && '.' !in PrintInt(n)
  {
    hide Decimal, Value;
    var m: nat := if n < 0 then -n else n;
    ValueDecimal(m);
    if n < 0 {
      assert PrintInt(n)[1..] == Decimal(m);
    }
  }

  lemma NumbersPrint(major: int, minor: int)
    requires Fits(major) && Fits(minor)
    ensures Numbers(PrintPair(major, minor)) == Some((major, minor))
  {
    hide Atoi, PrintInt;
    AtoiPrint(major);
    AtoiPrint(minor);
    SplitConcat(PrintInt(major), '.', PrintInt(minor));
    SplitNoSep(PrintInt(minor), '.');
  }

  // Two versions have the same printed pair exactly when they have the same
  // two numbers, whatever signs and zeros they are written with.
  lemma MajorMinorExact(v: string, w: string)
    ensures MajorMinor(v) == MajorMinor(w) <==> Numbers(v) == Numbers(w)
    ensures MajorMinor(v).Some? ==> MajorMinor(MajorMinor(v).value) == MajorMinor(v)
  {
    hide Atoi, PrintPair;
    if Numbers(v).Some? {
      NumbersFit(v);
      NumbersPrint(Numbers(v).value.0, Numbers(v).value.1);
    }
    if Numbers(w).Some? {
      NumbersFit(w);
      NumbersPrint(Numbers(w).value.0, Numbers(w).value.1);
    }
  }

  lemma NumbersFit(v: string)
    requires Numbers(v).Some?
    ensures Fits(Numbers(v).value.0) && Fits(Numbers(v).value.1)
  {
  }

  // ------------------------------------------------------- the two searches

  predicate PrefixMatch(vs: map<string, Option<Browser>>, v: string, version: string) {
    v in vs && !IsPlaywright(vs[v]) && version <= v
  }

  function FirstPrefix(vs: map<string, Option<Browser>>, order: seq<string>, version: string): Option<string> {
    if order == [] then None
    else if PrefixMatch(vs, order[0], version) then Some(order[0])
    else FirstPrefix(vs, order[1..], version)
  }

  predicate Compatible(vs: map<string, Option<Browser>>, v: string, version: string) {
    v in vs && IsPlaywright(vs[v]) && MajorMinor(version).Some? && MajorMinor(v) == MajorMinor(version)
  }

  // The first n keys that are compatible, in the order visited.
  function Compatibles(vs: map<string, Option<Browser>>, order: seq<string>, n: nat, version: string): seq<string>
    requires n <= |order|
  {
    if n == 0 then []
    else if Compatible(vs, order[n - 1], version) then Compatibles(vs, order, n - 1, version) + [order[n - 1]]
    else Compatibles(vs, order, n - 1, version)
  }

  method FindPlaywrightVersionMatches(vs: map<string, Option<Browser>>, order: seq<string>, version: string)
    returns (matches: seq<string>)
    requires Enumerates(order, vs.Keys)
    ensures matches == Compatibles(vs, order, |order|, version)
  {
    hide MajorMinor, IsPlaywright;
    matches := [];
    var requested := MajorMinor(version);
    if requested.None? {
      NoneCompatible(vs, order, |order|, version);
      return;
    }
    for n := 0 to |order|
      invariant matches == Compatibles(vs, order, n, version)
    {
      assert order[n] in vs.Keys;
      var v := order[n];
      if !IsPlaywright(vs[v]) { continue; }
      var configured := MajorMinor(v);
      if configured.None? || configured != requested { continue; }
      matches := matches + [v];
    }
  }

  lemma {:induction false} NoneCompatible(vs: map<string, Option<Browser>>, order: seq<string>, n: nat, version: string)
    requires n <= |order| && MajorMinor(version).None?
    ensures Compatibles(vs, order, n, version) == []
  {
    hide MajorMinor, IsPlaywright;
    if n > 0 {
      NoneCompatible(vs, order, n - 1, version);
    }
  }

  // ------------------------------------------------------------------- Find

  function Playwrights(vs: map<string, Option<Browser>>, order: seq<string>, version: string): Answer {
    var matches := Compatibles(vs, order, |order|, version);
    if |matches| == 1 && matches[0] in vs then Answer(vs[matches[0]], matches[0], true) else Answer(None, version, false)
  }

  function FindVersion(vs: map<string, Option<Browser>>, version: string, prefixOrder: seq<string>, order: seq<string>): Answer {
    if version in vs then Answer(vs[version], version, true)
    else
      var prefix := FirstPrefix(vs, prefixOrder, version);
      if prefix.Some? && prefix.value in vs && vs[prefix.value].Some? then Answer(vs[prefix.value], prefix.value, true)
      else Playwrights(vs, order, version)
  }

  // The version a request stands for; empty when there is none.
  function Requested(v: Versions, version: string): string {
    if version == "" then v.default else version
  }

  method FindBrowser(browsers: map<string, Versions>, name: string, requested: string,
                     prefixOrder: seq<string>, order: seq<string>) returns (a: Answer)
    requires name in browsers ==> Enumerates(prefixOrder, browsers[name].versions.Keys)
    requires name in browsers ==> Enumerates(order, browsers[name].versions.Keys)
    ensures a == if name !in browsers || Requested(browsers[name], requested) == "" then Answer(None, "", false)
                 else FindVersion(browsers[name].versions, Requested(browsers[name], requested), prefixOrder, order)
  {
    hide IsPlaywright, Compatible;
    if name !in browsers { return Answer(None, "", false); }
    var vs := browsers[name].versions;
    var version := requested;
    if version == "" {
      version := browsers[name].default;
      if version == "" { return Answer(None, "", false); }
    }
    if version in vs { return Answer(vs[version], version, true); }
    var prefixMatch: Option<Browser> := None;
    var prefixVersion := "";
    var n := 0;
    while n < |prefixOrder|
      invariant n <= |prefixOrder|
      invariant prefixMatch.None? && FirstPrefix(vs, prefixOrder, version) == FirstPrefix(vs, prefixOrder[n..], version)
    {
      var v := prefixOrder[n];
      assert v in vs.Keys;
      if !IsPlaywright(vs[v]) && version <= v {
        prefixMatch, prefixVersion := vs[v], v;
        break;
      }
      n := n + 1;
    }
    if prefixMatch.Some? { return Answer(prefixMatch, prefixVersion, true); }
    var matches := FindPlaywrightVersionMatches(vs, order, version);
    if |matches| == 1 {
      CompatiblesExact(vs, order, |order|, version);
      assert matches[0] in matches;
      return Answer(vs[matches[0]], matches[0], true);
    }
    return Answer(None, version, false);
  }

  // --------------------------------------------------------- what it promises

  lemma {:induction false} CompatiblesExact(vs: map<string, Option<Browser>>, order: seq<string>, n: nat, version: string)
    requires n <= |order|
    ensures forall v :: v in Compatibles(vs, order, n, version) <==> v in order[..n] && Compatible(vs, v, version)
    ensures NoDuplicates(order) ==> NoDuplicates(Compatibles(vs, order, n, version))
  {
    hide Compatible;
    if n > 0 {
      CompatiblesExact(vs, order, n - 1, version);
      assert order[..n] == order[..n - 1] + [order[n - 1]];
      var before := Compatibles(vs, order, n - 1, version);
      if NoDuplicates(order) {
        assert order[n - 1] !in order[..n - 1];
        assert forall i :: 0 <= i < |before| ==> before[i] in before;
      }
    }
  }

  lemma {:induction false} FirstPrefixExact(vs: map<string, Option<Browser>>, order: seq<string>, version: string)
    ensures var p := FirstPrefix(vs, order, version);
            && (p.Some? ==> p.value in order && PrefixMatch(vs, p.value, version))
            && (p.None? <==> forall v :: v in order ==> !PrefixMatch(vs, v, version))
  {
    hide IsPlaywright, PrefixMatch;
    if order != [] {
      FirstPrefixExact(vs, order[1..], version);
      assert order == [order[0]] + order[1..];
    }
  }

  // The only compatible entry is found, and only when it is the only one.
  lemma PlaywrightsExact(vs: map<string, Option<Browser>>, order: seq<string>, version: string)
    requires Enumerates(order, vs.Keys)
    ensures var a := Playwrights(vs, order, version);
            && (a.ok ==> a.version in vs && a.browser == vs[a.version])
            && (a.ok <==> exists v :: Only(vs, v, version))
            && (a.ok ==> Only(vs, a.version, version))
            && (!a.ok ==> a == Answer(None, version, false))
  {
    hide Compatible;
    var matches := Compatibles(vs, order, |order|, version);
    CompatiblesExact(vs, order, |order|, version);
    assert order[..|order|] == order;
    assert forall v :: Compatible(vs, v, version) ==> v in vs.Keys by { CompatibleIsKey(vs, version); }
    assert forall i :: 0 <= i < |matches| ==> matches[i] in matches;
    assert |matches| > 1 ==> matches[0] != matches[1];
    if |matches| == 1 {
      assert Only(vs, matches[0], version);
    }
    if v :| Only(vs, v, version) {
      assert v in matches;
      assert forall i :: 0 <= i < |matches| ==> matches[i] == v;
    }
  }

  lemma CompatibleIsKey(vs: map<string, Option<Browser>>, version: string)
    ensures forall v :: Compatible(vs, v, version) ==> v in vs.Keys
  {
  }

  predicate Only(vs: map<string, Option<Browser>>, v: string, version: string) {
    Compatible(vs, v, version) && forall w :: w in vs && Compatible(vs, w, version) ==> w == v
  }

  // An exact key wins.  Otherwise the answer is an entry whose key has the
  // requested prefix, or the only Playwright entry with the same major and
  // minor numbers: the first if every entry with the prefix is there, the
  // second if none is.  A Playwright entry is never chosen by its prefix.
  lemma FindExact(vs: map<string, Option<Browser>>, version: string, prefixOrder: seq<string>, order: seq<string>)
    requires Enumerates(prefixOrder, vs.Keys) && Enumerates(order, vs.Keys)
    ensures var a := FindVersion(vs, version, prefixOrder, order);
            && (a.ok ==> a.version in vs && a.browser == vs[a.version])
            && (version in vs ==> a.ok && a.version == version)
            && (version !in vs && a.ok ==> ByPrefix(vs, a.version, version) || Only(vs, a.version, version))
            && (version !in vs && !a.ok ==> !exists v :: Only(vs, v, version))
            && (!a.ok ==> a == Answer(None, version, false))
            && (version !in vs && NilFree(vs, version) && (exists v :: PrefixMatch(vs, v, version)) ==>
                 a.ok && ByPrefix(vs, a.version, version))
            && (version !in vs && AllNil(vs, version) ==> (a.ok <==> exists v :: Only(vs, v, version)))
            && (a.ok && IsPlaywright(a.browser) ==> a.version == version || Only(vs, a.version, version))
  {
    hide Compatible, Only, Playwrights;
    FirstPrefixExact(vs, prefixOrder, version);
    PlaywrightsExact(vs, order, version);
    assert forall v :: PrefixMatch(vs, v, version) ==> v in vs.Keys;
  }

  // An entry other than Playwright's that has the prefix and is not nil
  predicate ByPrefix(vs: map<string, Option<Browser>>, v: string, version: string) {
    PrefixMatch(vs, v, version) && vs[v].Some?
  }

  ghost predicate NilFree(vs: map<string, Option<Browser>>, version: string) {
    forall v :: PrefixMatch(vs, v, version) ==> vs[v].Some?
  }

  // Every entry that has the prefix is nil; there may be none.
  ghost predicate AllNil(vs: map<string, Option<Browser>>, version: string) {
    forall v :: PrefixMatch(vs, v, version) ==> vs[v].None?
  }

  ghost predicate AtMostOne(vs: map<string, Option<Browser>>, version: string) {
    forall v, w :: PrefixMatch(vs, v, version) && PrefixMatch(vs, w, version) ==> v == w
  }

  // The answer does not depend on the visiting orders when the key is exact,
  // when every entry that has the prefix is nil, or when at most one has it.
  lemma OrderIndependent(vs: map<string, Option<Browser>>, version: string,
                         p: seq<string>, o: seq<string>, p': seq<string>, o': seq<string>)
    requires Enumerates(p, vs.Keys) && Enumerates(o, vs.Keys) && Enumerates(p', vs.Keys) && Enumerates(o', vs.Keys)
    requires version in vs || AllNil(vs, version) || AtMostOne(vs, version)
    ensures FindVersion(vs, version, p, o) == FindVersion(vs, version, p', o')
  {
    hide Compatible, Only, Playwrights;
    FirstPrefixExact(vs, p, version);
    FirstPrefixExact(vs, p', version);
    PlaywrightsExact(vs, o, version);
    PlaywrightsExact(vs, o', version);
    assert forall v :: PrefixMatch(vs, v, version) ==> v in vs.Keys;
    OnlyOne(vs, version);
  }

  lemma OnlyOne(vs: map<string, Option<Browser>>, version: string)
    ensures forall v, w :: Only(vs, v, version) && Only(vs, w, version) ==> v == w
  {
    hide IsPlaywright, MajorMinor;
  }

  // So for a browser with only Playwright entries it never does.
  lemma PlaywrightOrderIndependent(vs: map<string, Option<Browser>>, version: string,
                                   p: seq<string>, o: seq<string>, p': seq<string>, o': seq<string>)
    requires Enumerates(p, vs.Keys) && Enumerates(o, vs.Keys) && Enumerates(p', vs.Keys) && Enumerates(o', vs.Keys)
    requires forall v :: v in vs ==> IsPlaywright(vs[v])
    ensures FindVersion(vs, version, p, o) == FindVersion(vs, version, p', o')
  {
    OrderIndependent(vs, version, p, o, p', o');
  }

  lemma EnumerateFrom(keys: set<string>, first: string) returns (order: seq<string>)
    requires first in keys
    ensures Enumerates(order, keys) && order[0] == first
    decreases |keys|
  {
    var rest := keys - {first};
    if rest == {} {
      order := [first];
    } else {
      var next :| next in rest;
      var tail := EnumerateFrom(rest, next);
      order := [first] + tail;
    }
  }

  lemma OrderMatters(vs: map<string, Option<Browser>>, version: string, v: string, w: string, order: seq<string>)
    returns (p: seq<string>, p': seq<string>)
    requires version !in vs && v != w && ByPrefix(vs, v, version) && PrefixMatch(vs, w, version)
    requires Enumerates(order, vs.Keys)
    ensures Enumerates(p, vs.Keys) && Enumerates(p', vs.Keys)
    ensures FindVersion(vs, version, p, order) != FindVersion(vs, version, p', order)
  {
    hide IsPlaywright, Playwrights, Compatible;
    p := EnumerateFrom(vs.Keys, v);
    p' := EnumerateFrom(vs.Keys, w);
    PlaywrightsExact(vs, order, version);
    OnlyIsPlaywright(vs, version);
    assert FindVersion(vs, version, p, order) == Answer(vs[v], v, true);
  }

  lemma OnlyIsPlaywright(vs: map<string, Option<Browser>>, version: string)
    ensures forall v :: Only(vs, v, version) ==> v in vs && IsPlaywright(vs[v])
  {
  }

  ghost predicate OrderFree(vs: map<string, Option<Browser>>, version: string) {
    forall p, o, p', o' ::
      Enumerates(p, vs.Keys) && Enumerates(o, vs.Keys) && Enumerates(p', vs.Keys) && Enumerates(o', vs.Keys) ==>
        FindVersion(vs, version, p, o) == FindVersion(vs, version, p', o')
  }

  // And in no other case.
  lemma OrderFreeExactly(vs: map<string, Option<Browser>>, version: string)
    ensures OrderFree(vs, version) <==> version in vs || AllNil(vs, version) || AtMostOne(vs, version)
  {
    hide FindVersion;
    if version in vs || AllNil(vs, version) || AtMostOne(vs, version) {
      forall p, o, p', o' | Enumerates(p, vs.Keys) && Enumerates(o, vs.Keys) && Enumerates(p', vs.Keys) && Enumerates(o', vs.Keys)
        ensures FindVersion(vs, version, p, o) == FindVersion(vs, version, p', o')
      {
        OrderIndependent(vs, version, p, o, p', o');
      }
    } else {
      var v :| PrefixMatch(vs, v, version) && vs[v].Some?;
      assert v in vs.Keys && ByPrefix(vs, v, version);
      var x, y :| PrefixMatch(vs, x, version) && PrefixMatch(vs, y, version) && x != y;
      var o := EnumerateFrom(vs.Keys, v);
      var p, p' := OrderMatters(vs, version, v, if x == v then y else x, o);
    }
  }
}
