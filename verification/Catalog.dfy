// discovery/catalog.go compareVersions and highestVersion.
module Catalog {
  import opened Seqs
  import opened Text
  import Sorting

  const MAX_INT: int := 0x7FFF_FFFF_FFFF_FFFF
  const TWO_64: int := 0x1_0000_0000_0000_0000

  // A 64-bit int keeps the value modulo 2^64.
  function Wrap(x: int): int {
    (x + MAX_INT + 1) % TWO_64 - MAX_INT - 1
  }

  function DigitRun(s: string): (r: string)
    ensures AllDigits(r) && r <= s
  {
    if s != "" && IsDigit(s[0]) then [s[0]] + DigitRun(s[1..]) else ""
  }

  function Signed(negative: bool, n: nat): int {
    if negative then -(n as int) else n
  }

  // fmt.Sscanf with %d: blanks but no newline, a sign, digits, and anything
  // after them.  None is an error: no digits, or a number beyond 64 bits.
  function ScanInt(s: string): Option<int> {
    if s == "" || s[0] == '\n' then None
    else if IsSpace(s[0]) then ScanInt(s[1..])
    else
      var digits := DigitRun(if s[0] == '+' || s[0] == '-' then s[1..] else s);
      var n := Signed(s[0] == '-', Value(digits));
      if digits == "" || !(-MAX_INT - 1 <= n <= MAX_INT) then None else Some(n)
  }

  // Two segments: as numbers when both scan, otherwise as text.
  function CompareSegment(x: string, y: string): int {
    if ScanInt(x).Some? && ScanInt(y).Some? then
      if ScanInt(x) == ScanInt(y) then 0 else Wrap(ScanInt(x).value - ScanInt(y).value)
    else if x == y then 0
    else if StrLe(x, y) then -1
    else 1
  }

  function CompareSegments(p: seq<string>, q: seq<string>): int {
    if p == [] || q == [] then |p| - |q|
    else if CompareSegment(p[0], q[0]) != 0 then CompareSegment(p[0], q[0])
    else CompareSegments(p[1..], q[1..])
  }

  function Compare(a: string, b: string): int {
    CompareSegments(Split(a, '.'), Split(b, '.'))
  }

  // The first k pairs of segments are equal, and what comes then decides.
  predicate Decides(p: seq<string>, q: seq<string>, k: nat, r: int) {
    && k <= |p| && k <= |q| && (forall i :: 0 <= i < k ==> CompareSegment(p[i], q[i]) == 0)
    && if k == |p| || k == |q| then r == |p| - |q| else r != 0 && r == CompareSegment(p[k], q[k])
  }

  method CompareVersions(a: string, b: string) returns (r: int)
    ensures r == Compare(a, b)
    ensures exists k: nat :: Decides(Split(a, '.'), Split(b, '.'), k, r)
  {
    hide ScanInt, Split;
    var pa, pb := Split(a, '.'), Split(b, '.');
    var i := 0;
    while i < |pa| && i < |pb|
      invariant i <= |pa| && i <= |pb|
      invariant CompareSegments(pa, pb) == CompareSegments(pa[i..], pb[i..])
      invariant forall j :: 0 <= j < i ==> CompareSegment(pa[j], pb[j]) == 0
    {
      var na, nb := ScanInt(pa[i]), ScanInt(pb[i]);
      if na.Some? && nb.Some? {
        if na.value != nb.value {
          DifferenceWraps(pa[i], pb[i]);
          r := Wrap(na.value - nb.value);
          assert Decides(pa, pb, i, r);
          return;
        }
      } else if pa[i] != pb[i] {
        StrLeTotal(pa[i], pb[i]);
        r := if StrLe(pa[i], pb[i]) then -1 else 1;
        assert Decides(pa, pb, i, r);
        return;
      }
      i := i + 1;
    }
    r := |pa| - |pb|;
    assert Decides(pa, pb, i, r);
  }

  // A difference of two unequal 64-bit numbers never wraps to zero.
  lemma DifferenceWraps(x: string, y: string)
    requires ScanInt(x).Some? && ScanInt(y).Some? && ScanInt(x) != ScanInt(y)
    ensures Wrap(ScanInt(x).value - ScanInt(y).value) != 0
  {
    hide ScanInt;
    ScanRange(x);
    ScanRange(y);
    NoZero(ScanInt(x).value - ScanInt(y).value);
  }

  lemma NoZero(d: int)
    requires -TWO_64 < d < TWO_64 && d != 0
    ensures Wrap(d) != 0
  {
  }

  lemma {:induction false} ScanRange(s: string)
    ensures ScanInt(s).Some? ==> -MAX_INT - 1 <= ScanInt(s).value <= MAX_INT
  {
    if s != "" && s[0] != '\n' && IsSpace(s[0]) {
      ScanRange(s[1..]);
    }
  }

  // -------------------------------------------------------- when it is an order

  predicate StartsWithDigit(s: string) {
    s != "" && IsDigit(s[0])
  }

  // A segment that scans as a number exactly when it starts with a digit: a
  // leading number fits 64 bits, and a leading sign or blank is not followed by
  // a number.
  predicate Orderly(s: string) {
    ScanInt(s).Some? <==> StartsWithDigit(s)
  }

  predicate OrderlyAll(p: seq<string>) {
    forall i :: 0 <= i < |p| ==> Orderly(p[i])
  }

  predicate OrderlyVersion(v: string) {
    OrderlyAll(Split(v, '.'))
  }

  lemma ScanDigits(s: string)
    requires StartsWithDigit(s)
    ensures ScanInt(s) == if Value(DigitRun(s)) <= MAX_INT then Some(Value(DigitRun(s))) else None
  {
  }

  function AfterBlanks(s: string): (t: string)
    ensures t == "" || t[0] == '\n' || !IsSpace(t[0])
  {
    if s != "" && s[0] != '\n' && IsSpace(s[0]) then AfterBlanks(s[1..]) else s
  }

  predicate IsSign(c: char) {
    c == '+' || c == '-'
  }

  // Digits in front of s, and behind a minus sign or not a number of 64 bits
  predicate Fits(negative: bool, s: string) {
    DigitRun(s) != "" && Value(DigitRun(s)) <= (if negative then MAX_INT + 1 else MAX_INT)
  }

  // What the orderly segments are: a digit in front means a number that fits;
  // anything else means no such number behind blanks, or a sign, or both.
  lemma {:induction false} OrderlyMeans(s: string)
    ensures Orderly(s) <==>
            if StartsWithDigit(s) then Fits(false, s)
            else
              var t := AfterBlanks(s);
              !Fits(false, t) && !(t != "" && IsSign(t[0]) && Fits(t[0] == '-', t[1..]))
  {
    ScanAfterBlanks(s);
    ScanNumber(AfterBlanks(s));
  }

  lemma ScanNumber(t: string)
    requires t == "" || t[0] == '\n' || !IsSpace(t[0])
    ensures ScanInt(t).Some? <==> Fits(false, t) || (t != "" && IsSign(t[0]) && Fits(t[0] == '-', t[1..]))
  {
  }

  lemma {:induction false} ScanAfterBlanks(s: string)
    ensures ScanInt(s) == ScanInt(AfterBlanks(s))
    ensures StartsWithDigit(s) ==> AfterBlanks(s) == s
  {
    if s != "" && s[0] != '\n' && IsSpace(s[0]) {
      ScanAfterBlanks(s[1..]);
    }
  }

  // So a sign does harm exactly when a number that fits follows it.
  lemma SignedButOrderly(sign: char, t: string)
    requires IsSign(sign)
    ensures Orderly([sign] + t) <==> !Fits(sign == '-', t)
  {
    var s := [sign] + t;
    assert s[1..] == t;
  }

  // Text before the digits, numbers, text after the digits.
  function Class(s: string): int {
    if s == "" || s[0] < '0' then 0 else if s[0] <= '9' then 1 else 2
  }

  function Sign(n: int): int {
    if n < 0 then -1 else if n == 0 then 0 else 1
  }

  // On orderly segments numbers are compared as numbers, everything else as
  // text, and text never falls between two numbers.
  lemma OrderlyCompare(x: string, y: string)
    requires Orderly(x) && Orderly(y)
    ensures Sign(CompareSegment(x, y)) ==
            if Class(x) != Class(y) then Sign(Class(x) - Class(y))
            else if Class(x) == 1 then Sign(Value(DigitRun(x)) - Value(DigitRun(y)))
            else if x == y then 0
            else if StrLe(x, y) then -1 else 1
  {
    hide ScanInt, DigitRun, Value;
    if Class(x) == 1 {
      ScanDigits(x);
    }
    if Class(y) == 1 {
      ScanDigits(y);
    }
    if Class(x) == Class(y) == 1 {
      WrapFits(x, y);
    }
  }

  lemma WrapFits(x: string, y: string)
    requires Value(DigitRun(x)) <= MAX_INT && Value(DigitRun(y)) <= MAX_INT
    ensures var d := Value(DigitRun(x)) - Value(DigitRun(y)); Wrap(d) == d
  {
    hide Value, DigitRun;
  }

  lemma SegmentLaws(x: string, y: string)
    requires Orderly(x) && Orderly(y)
    ensures Sign(CompareSegment(x, y)) == -Sign(CompareSegment(y, x))
  {
    hide Orderly, CompareSegment;
    OrderlyCompare(x, y);
    OrderlyCompare(y, x);
    StrLeTotal(x, y);
  }

  lemma SegmentTransitive(x: string, y: string, z: string)
    requires Orderly(x) && Orderly(y) && Orderly(z)
    requires CompareSegment(x, y) <= 0 && CompareSegment(y, z) <= 0
    ensures CompareSegment(x, z) <= 0
    ensures CompareSegment(x, z) == 0 ==> CompareSegment(x, y) == 0 && CompareSegment(y, z) == 0
  {
    hide Orderly, CompareSegment;
    OrderlyCompare(x, y);
    OrderlyCompare(y, z);
    OrderlyCompare(x, z);
    if StrLe(x, y) && StrLe(y, z) {
      StrLeTransitive(x, y, z);
    }
    if x == z {
      StrLeTotal(x, y);
    }
  }

  lemma {:induction false} SegmentsLaws(p: seq<string>, q: seq<string>)
    requires OrderlyAll(p) && OrderlyAll(q)
    ensures Sign(CompareSegments(p, q)) == -Sign(CompareSegments(q, p))
  {
    hide Orderly, CompareSegment;
    if p != [] && q != [] {
      SegmentLaws(p[0], q[0]);
      SegmentsLaws(p[1..], q[1..]);
    }
  }

  lemma {:induction false} SegmentsTransitive(p: seq<string>, q: seq<string>, r: seq<string>)
    requires OrderlyAll(p) && OrderlyAll(q) && OrderlyAll(r)
    requires CompareSegments(p, q) <= 0 && CompareSegments(q, r) <= 0
    ensures CompareSegments(p, r) <= 0
  {
    hide Orderly, CompareSegment;
    if p != [] && q != [] && r != [] {
      SegmentTransitive(p[0], q[0], r[0]);
      if CompareSegment(p[0], r[0]) == 0 {
        SegmentsTransitive(p[1..], q[1..], r[1..]);
      }
    }
  }

  function ByVersion(): (string, string) -> bool {
    (a: string, b: string) => Compare(a, b) <= 0
  }

  // Any set of orderly versions is totally preordered by compareVersions.
  lemma OrderlyVersionsOrdered(versions: set<string>)
    requires forall v :: v in versions ==> OrderlyVersion(v)
    ensures Sorting.PreorderOn(versions, ByVersion())
  {
    hide OrderlyAll, CompareSegments, Split;
    var le := ByVersion();
    forall x, y | x in versions && y in versions
      ensures le(x, y) || le(y, x)
    {
      SegmentsLaws(Split(x, '.'), Split(y, '.'));
    }
    forall x, y, z | x in versions && y in versions && z in versions && le(x, y) && le(y, z)
      ensures le(x, z)
    {
      SegmentsTransitive(Split(x, '.'), Split(y, '.'), Split(z, '.'));
    }
  }

  // The first pair of segments that differ decides; where none does, the
  // version with more segments is the higher one.
  lemma {:induction false} FirstDecides(p: seq<string>, q: seq<string>, k: nat)
    requires k <= |p| && k <= |q| && forall i :: 0 <= i < k ==> CompareSegment(p[i], q[i]) == 0
    ensures k < |p| && k < |q| && CompareSegment(p[k], q[k]) != 0 ==> CompareSegments(p, q) == CompareSegment(p[k], q[k])
    ensures k == |p| || k == |q| ==> CompareSegments(p, q) == |p| - |q|
  {
    hide CompareSegment;
    if k > 0 {
      FirstDecides(p[1..], q[1..], k - 1);
    }
  }

  // -------------------------------------------------------- and when it is not

  // a and b are orderly, s stands between them, and yet a is above b.
  predicate Misplaced(a: string, s: string, b: string) {
    && Orderly(a) && Orderly(b) && '.' !in a && '.' !in b
    && CompareSegment(a, s) <= 0 && CompareSegment(s, b) <= 0 && CompareSegment(a, b) > 0
  }

  // Text that starts neither with a digit, a sign nor a blank
  lemma TextScans(s: string)
    requires s == "/" || s == ":" || s == "\U{10FFFF}"
    ensures ScanInt(s) == None && '.' !in s
  {
  }

  lemma NumberScans(n: nat)
    requires n <= MAX_INT
    ensures ScanInt(Decimal(n)) == Some(n) && StartsWithDigit(Decimal(n)) && '.' !in Decimal(n)
  {
    hide ScanInt;
    ValueDecimal(n);
    AllDigitsRun(Decimal(n));
    ScanDigits(Decimal(n));
  }

  lemma DecimalZero()
    ensures Decimal(0) == "0"
  {
  }

  // A sign or blank followed by a number.  A negative number wraps around
  // below the largest; another one is a number that is also text before the
  // digits, or, after some blanks of Unicode, text behind them.
  lemma SignsMakeACycle(s: string) returns (a: string, b: string)
    requires ScanInt(s).Some? && !StartsWithDigit(s)
    ensures Misplaced(a, s, b)
  {
    hide ScanInt, Decimal;
    ScanRange(s);
    EmptyScans();
    var n := ScanInt(s).value;
    NumberScans(0);
    NumberScans(MAX_INT);
    TextScans("/");
    TextScans(":");
    DecimalZero();
    if n < 0 {
      a, b := Decimal(MAX_INT), "0";
    } else if s[0] < '0' {
      SignBelowSlash(s);
      a, b := "0", "/";
      HeadsOrder("/", "0");
    } else {
      a, b := ":", Decimal(MAX_INT);
      SpaceAbove(s);
      HeadsOrder(":", s);
      HeadsOrder(Decimal(MAX_INT), ":");
    }
  }

  // Of these only the blanks of Unicode stand above the digits, and above ':'.
  lemma SpaceAbove(s: string)
    requires ScanInt(s).Some? && !StartsWithDigit(s) && s[0] >= '0'
    ensures s[0] > ':'
  {
  }

  lemma HeadsOrder(x: string, y: string)
    requires x != "" && y != "" && x[0] < y[0]
    ensures StrLe(x, y) && !StrLe(y, x) && x != y
  {
  }

  lemma EmptyScans()
    ensures ScanInt("") == None
  {
  }

  lemma SignBelowSlash(s: string)
    requires ScanInt(s).Some? && s[0] < '0'
    ensures StrLe(s, "/") && s != "/"
  {
  }

  // A number that does not fit is compared as text, which puts its first
  // digits, a number, below it and below the first digit followed by a letter.
  lemma LongNumbersMakeACycle(s: string) returns (a: string, b: string)
    requires StartsWithDigit(s) && ScanInt(s).None?
    ensures Misplaced(a, s, b)
  {
    hide ScanInt, Value;
    var run := DigitRun(s);
    ScanDigits(s);
    var k := FittingPrefix(run);
    a, b := run[..k], [s[0]] + "z";
    assert a <= s;
    AllDigitsRun(a);
    ScanDigits(a);
    DigitThenZ(s[0]);
    ScanDigits(b);
    assert run[1] == s[1] && IsDigit(s[1]);
    assert s[1..][0] == s[1] && b[1..] == "z" && !StrLe(b, s) && StrLe(s, b) by { DigitBelowZ(s); }
    PrefixLe(a, s);
  }

  lemma DigitBelowZ(s: string)
    requires |s| > 1 && IsDigit(s[1])
    ensures var b := [s[0]] + "z"; b[1..] == "z" && !StrLe(b, s) && StrLe(s, b)
  {
    var b := [s[0]] + "z";
    assert b[1..] == "z" && s[1..][0] == s[1];
  }

  lemma DigitThenZ(c: char)
    requires IsDigit(c)
    ensures var b := [c] + "z"; DigitRun(b) == [c] && Value([c]) <= 9
  {
    var b := [c] + "z";
    assert b[1..] == "z" && DigitRun("z") == "";
    assert [c][..0] == "";
  }

  lemma {:induction false} PrefixLe(a: string, s: string)
    requires a <= s
    ensures StrLe(a, s)
  {
    if a != "" {
      PrefixLe(a[1..], s[1..]);
    }
  }

  // A digit string that does not fit has a shorter start that does, of more
  // than one digit's value.
  lemma {:induction false} FittingPrefix(run: string) returns (k: nat)
    requires AllDigits(run) && Value(run) > MAX_INT
    ensures 0 < k < |run| && 9 < Value(run[..k]) <= MAX_INT
  {
    k := |run| - 1;
    if Value(run[..k]) > MAX_INT {
      var front := run[..k];
      k := FittingPrefix(front);
      assert front[..k] == run[..k];
    }
  }

  // A segment keeps its place among the orderly ones exactly when it is one
  // of them.
  lemma SegmentExactly(s: string)
    ensures Orderly(s) <==> forall a, b :: !Misplaced(a, s, b)
  {
    hide ScanInt, CompareSegment, StartsWithDigit;
    if Orderly(s) {
      forall a, b | Orderly(a) && Orderly(b) && CompareSegment(a, s) <= 0 && CompareSegment(s, b) <= 0
        ensures CompareSegment(a, b) <= 0
      {
        SegmentTransitive(a, s, b);
      }
    } else if StartsWithDigit(s) {
      var a, b := LongNumbersMakeACycle(s);
    } else {
      var a, b := SignsMakeACycle(s);
    }
  }

  // A version that fits in with any two orderly ones
  ghost predicate FitsIn(v: string) {
    forall a, b :: OrderlyVersion(a) && OrderlyVersion(b) ==> Sorting.PreorderOn({a, v, b}, ByVersion())
  }

  // compareVersions orders a version among the orderly ones exactly when all
  // its segments are orderly.
  lemma OrderedExactly(v: string)
    ensures FitsIn(v) <==> OrderlyVersion(v)
  {
    hide OrderlyAll, Compare;
    if OrderlyVersion(v) {
      forall a, b | OrderlyVersion(a) && OrderlyVersion(b)
        ensures Sorting.PreorderOn({a, v, b}, ByVersion())
      {
        OrderlyVersionsOrdered({a, v, b});
      }
    } else {
      var a, b := VersionMisplaced(v);
      assert ByVersion()(a, v) && ByVersion()(v, b) && !ByVersion()(a, b);
      assert !Sorting.PreorderOn({a, v, b}, ByVersion());
    }
  }

  // The first segment that is not orderly decides, behind the segments before
  // it and in front of something above the segments after it.
  lemma SegmentsMisplaced(p: seq<string>) returns (pa: seq<string>, pb: seq<string>)
    requires !OrderlyAll(p) && forall i :: 0 <= i < |p| ==> '.' !in p[i]
    ensures pa != [] && OrderlyAll(pa) && forall i :: 0 <= i < |pa| ==> '.' !in pa[i]
    ensures pb != [] && OrderlyAll(pb) && forall i :: 0 <= i < |pb| ==> '.' !in pb[i]
    ensures CompareSegments(pa, p) <= 0 && CompareSegments(p, pb) <= 0 && CompareSegments(pa, pb) > 0
    decreases |p|
  {
    hide ScanInt, CompareSegment, StartsWithDigit, Orderly;
    var rest := p[1..];
    assert p == [p[0]] + rest;
    if Orderly(p[0]) {
      var ra, rb := SegmentsMisplaced(rest);
      pa, pb := [p[0]] + ra, [p[0]] + rb;
      SameSegment(p[0]);
      HeadsDecide(p[0], ra, p[0], rest);
      HeadsDecide(p[0], rest, p[0], rb);
      HeadsDecide(p[0], ra, p[0], rb);
    } else {
      SegmentExactly(p[0]);
      var x, y :| Misplaced(x, p[0], y);
      AboveIs(rest);
      pa, pb := [x] + [], [y] + Above(rest);
      HeadsDecide(x, [], p[0], rest);
      HeadsDecide(p[0], rest, y, Above(rest));
      HeadsDecide(x, [], y, Above(rest));
    }
  }

  lemma VersionMisplaced(v: string) returns (a: string, b: string)
    requires !OrderlyVersion(v)
    ensures OrderlyVersion(a) && OrderlyVersion(b)
    ensures Compare(a, v) <= 0 && Compare(v, b) <= 0 && Compare(a, b) > 0
  {
    hide OrderlyAll, CompareSegments, Split;
    var pa, pb := SegmentsMisplaced(Split(v, '.'));
    a, b := Join(pa, '.'), Join(pb, '.');
    SplitJoin(pa, '.');
    SplitJoin(pb, '.');
  }

  // Orderly segments that are not below rest
  function Above(rest: seq<string>): seq<string> {
    if rest == [] then []
    else if Orderly(rest[0]) then [rest[0]] + Above(rest[1..])
    else ["\U{10FFFF}"]
  }

  lemma {:induction false} AboveIs(rest: seq<string>)
    requires forall i :: 0 <= i < |rest| ==> '.' !in rest[i]
    ensures OrderlyAll(Above(rest)) && CompareSegments(rest, Above(rest)) <= 0
    ensures forall i :: 0 <= i < |Above(rest)| ==> '.' !in Above(rest)[i]
  {
    hide ScanInt, StartsWithDigit, CompareSegment;
    TextScans("\U{10FFFF}");
    HighIsText();
    if rest != [] {
      if Orderly(rest[0]) {
        SameSegment(rest[0]);
        AboveIs(rest[1..]);
        assert ([rest[0]] + Above(rest[1..]))[1..] == Above(rest[1..]);
      } else {
        HighIsAbove(rest[0]);
      }
    }
  }

  lemma HighIsText()
    ensures !StartsWithDigit("\U{10FFFF}")
  {
  }

  lemma HighIsAbove(s: string)
    requires !Orderly(s)
    ensures CompareSegment(s, "\U{10FFFF}") < 0
  {
    TextScans("\U{10FFFF}");
    assert s != "" && s[0] < '\U{10FFFF}';
  }

  lemma SameSegment(s: string)
    ensures CompareSegment(s, s) == 0
  {
  }

  lemma HeadsDecide(x: string, p: seq<string>, y: string, q: seq<string>)
    ensures CompareSegments([x] + p, [y] + q)
         == if CompareSegment(x, y) != 0 then CompareSegment(x, y) else CompareSegments(p, q)
  {
    hide CompareSegment;
    assert ([x] + p)[1..] == p && ([y] + q)[1..] == q;
  }

  // ------------------------------------------------------ the highest version

  function Highest(order: seq<string>): (h: string) {
    var sorted := Sorting.Sort(order, ByVersion());
    if sorted == [] then "" else sorted[|sorted| - 1]
  }

  // order is the order in which the map's keys were visited.
  method HighestVersion(order: seq<string>) returns (h: string)
    ensures h == Highest(order)
    ensures order == [] ==> h == ""
    ensures order != [] ==> h in order
  {
    var keys: seq<string> := [];
    for i := 0 to |order|
      invariant keys == order[..i]
    {
      keys := keys + [order[i]];
    }
    HighestIsKey(order);
    assert keys == order;
    keys := Sorting.Sort(keys, ByVersion());
    if |keys| == 0 { return ""; }
    return keys[|keys| - 1];
  }

  lemma HighestIsKey(order: seq<string>)
    ensures |Sorting.Sort(order, ByVersion())| == |order|
    ensures order != [] ==> Highest(order) in order
  {
    var sorted := Sorting.Sort(order, ByVersion());
    Sorting.SortPermutes(order, ByVersion());
    assert |sorted| == |multiset(sorted)| && |order| == |multiset(order)|;
    if order != [] {
      assert Highest(order) in multiset(sorted);
      assert Highest(order) in order;
    }
  }

  // Among orderly versions the result is maximal, whatever the order of the keys
  // and the sorting algorithm, so two orders give versions of equal rank.
  lemma HighestIsMaximal(order: seq<string>, sorted: seq<string>)
    requires order != [] && forall i :: 0 <= i < |order| ==> OrderlyVersion(order[i])
    requires multiset(sorted) == multiset(order) && Sorting.Sorted(sorted, ByVersion())
    ensures forall v :: v in order ==> Compare(v, Highest(order)) <= 0
    ensures sorted != [] && forall v :: v in order ==> Compare(v, sorted[|sorted| - 1]) <= 0
  {
    hide OrderlyVersion, Compare;
    var dom := set v | v in order;
    assert forall v :: v in dom ==> OrderlyVersion(v);
    OrderlyVersionsOrdered(dom);
    Sorting.SortPermutes(order, ByVersion());
    Sorting.SortSortsOn(order, ByVersion(), dom);
    HighestIsKey(order);
    assert |sorted| == |multiset(sorted)| && |order| == |multiset(order)|;
    LastIsTop(order, sorted);
    LastIsTop(order, Sorting.Sort(order, ByVersion()));
  }

  lemma LastIsTop(order: seq<string>, sorted: seq<string>)
    requires order != [] && forall i :: 0 <= i < |order| ==> OrderlyVersion(order[i])
    requires multiset(sorted) == multiset(order) && Sorting.Sorted(sorted, ByVersion()) && sorted != []
    ensures forall v :: v in order ==> Compare(v, sorted[|sorted| - 1]) <= 0
  {
    hide OrderlyVersion, Compare;
    var n := |sorted| - 1;
    forall v | v in order
      ensures Compare(v, sorted[n]) <= 0
    {
      assert v in multiset(order);
      assert v in sorted;
      var i :| 0 <= i < |sorted| && sorted[i] == v;
      if i < n {
        assert ByVersion()(sorted[i], sorted[n]);
      } else {
        SameVersion(v);
      }
    }
  }

  lemma SameVersion(v: string)
    ensures Compare(v, v) <= 0
  {
    SameSegments(Split(v, '.'));
  }

  lemma {:induction false} SameSegments(p: seq<string>)
    ensures CompareSegments(p, p) == 0
  {
    if p != [] {
      SameSegments(p[1..]);
    }
  }

  lemma {:induction false} AllDigitsRun(s: string)
    requires AllDigits(s)
    ensures DigitRun(s) == s
  {
    if s != "" {
      AllDigitsRun(s[1..]);
    }
  }
}
