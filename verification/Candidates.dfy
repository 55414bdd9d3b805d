// stack_versions.go pickCandidateVersions and stack_update.go
// findCandidateByCanonical: the newer tags offered for a service, and the
// check that a requested tag is one of them.
module Candidates {
  import opened Seqs
  import opened SemVer
  import Sorting
  import Text

  datatype Cand = Cand(orig: string, canon: string)

  // semver.Compare: what is not a version is below every version.
  function CompareTags(a: string, b: string): int {
    match (Parse(a), Parse(b))
    case (None, None) => 0
    case (None, Some(_)) => -1
    case (Some(_), None) => 1
    case (Some(v), Some(w)) => Compare(v, w)
  }

  predicate IsPre(c: string) {
    Parse(c).Some? && Parse(c).value.pre != []
  }

  // Newer than the current version, and a pre-release only for a pre-release.
  predicate Eligible(cur: string, c: string) {
    && (IsPre(c) ==> cur != "" && IsPre(cur))
    && (cur != "" ==> CompareTags(c, cur) > 0)
  }

  predicate SeenBefore(tags: seq<string>, n: nat, c: string)
    requires n <= |tags|
  {
    exists i :: 0 <= i < n && NormalizeTag(tags[i]) == c
  }

  lemma SeenStep(tags: seq<string>, n: nat, c: string)
    requires n < |tags|
    ensures SeenBefore(tags, n + 1, c) <==> SeenBefore(tags, n, c) || NormalizeTag(tags[n]) == c
  {
    if SeenBefore(tags, n + 1, c) {
      var i :| 0 <= i < n + 1 && NormalizeTag(tags[i]) == c;
      assert i < n || NormalizeTag(tags[n]) == c;
    }
  }

  function CandOf(tag: string): Cand {
    Cand(Text.TrimSpace(tag), NormalizeTag(tag))
  }

  predicate Chosen(cur: string, tags: seq<string>, i: nat)
    requires i < |tags|
  {
    var c := NormalizeTag(tags[i]);
    c != "" && !SeenBefore(tags, i, c) && Eligible(cur, c)
  }

  // The candidates among the first n tags, in the order they are listed.
  function Collect(cur: string, tags: seq<string>, n: nat): seq<Cand>
    requires n <= |tags|
  {
    if n == 0 then []
    else if Chosen(cur, tags, n - 1) then Collect(cur, tags, n - 1) + [CandOf(tags[n - 1])]
    else Collect(cur, tags, n - 1)
  }

  function Descending(): (Cand, Cand) -> bool {
    (a: Cand, b: Cand) => CompareTags(a.canon, b.canon) >= 0
  }

  function Ranked(current: string, tags: seq<string>): seq<Cand> {
    Sorting.Sort(Collect(NormalizeTag(current), tags, |tags|), Descending())
  }

  function Origs(cands: seq<Cand>): seq<string> {
    seq(|cands|, i requires 0 <= i < |cands| => cands[i].orig)
  }

  function Picked(current: string, tags: seq<string>, max: nat): seq<string> {
    var ranked := Ranked(current, tags);
    Origs(if |ranked| > max then ranked[..max] else ranked)
  }

  // ------------------------------------- what is offered, by version numbers

  // Tag i is the first publication of a version above the current one, and a
  // pre-release only if that is one.
  predicate Offerable(current: string, tags: seq<string>, i: nat)
    requires i < |tags|
  {
    && TagVersion(tags[i]).Some?
    && (forall j :: 0 <= j < i ==> TagVersion(tags[j]) != TagVersion(tags[i]))
    && (TagVersion(tags[i]).value.pre != [] ==> TagVersion(current).Some? && TagVersion(current).value.pre != [])
    && (TagVersion(current).Some? ==> Lower(TagVersion(current).value, TagVersion(tags[i]).value))
  }

  // Both are versions, and s is the higher one.
  predicate Above(s: string, t: string) {
    TagVersion(s).Some? && TagVersion(t).Some? && Lower(TagVersion(t).value, TagVersion(s).value)
  }

  method PickCandidateVersions(currentTag: string, available: seq<string>, max: nat) returns (out: seq<string>)
    ensures out == Picked(currentTag, available, max)
    ensures forall i, j :: 0 <= i < j < |out| ==> Above(out[i], out[j])
    ensures |available| <= max ==>
              forall tag :: tag in out <==>
                exists i ::
                  0 <= i < |available| && Offerable(currentTag, available, i) && tag == Text.TrimSpace(available[i])
  {
    hide NormalizeTag, CompareTags, IsPre, Text.TrimSpace, Offerable, Above;
    var cur := NormalizeTag(currentTag);
    var allowPre := cur != "" && IsPre(cur);
    var cands: seq<Cand> := [];
    var seen: set<string> := {};
    for i := 0 to |available|
      invariant cands == Collect(cur, available, i)
      invariant forall c :: c in seen <==> c != "" && SeenBefore(available, i, c)
    {
      var c := NormalizeTag(available[i]);
      forall d
        ensures SeenBefore(available, i + 1, d) <==> SeenBefore(available, i, d) || d == c
      {
        SeenStep(available, i, d);
      }
      if c != "" && c !in seen {
        seen := seen + {c};
        if (allowPre || !IsPre(c)) && !(cur != "" && CompareTags(c, cur) <= 0) {
          cands := cands + [Cand(Text.TrimSpace(available[i]), c)];
        }
      }
    }
    cands := Sorting.Sort(cands, Descending());
    if |cands| > max {
      cands := cands[..max];
    }
    out := [];
    for i := 0 to |cands|
      invariant out == Origs(cands)[..i]
    {
      out := out + [cands[i].orig];
    }
    PickedAll(currentTag, available, max);
  }

  // ------------------------------------------------------------- the ranking

  lemma DescendingIsPreorder()
    ensures Sorting.TotalPreorder(Descending())
  {
    var le := Descending();
    forall x, y
      ensures le(x, y) || le(y, x)
    {
      CompareTagsLaws(x.canon, y.canon);
    }
    forall x, y, z | le(x, y) && le(y, z)
      ensures le(x, z)
    {
      CompareTagsLaws(x.canon, y.canon);
      CompareTagsLaws(y.canon, z.canon);
      CompareTagsLaws(x.canon, z.canon);
      CompareTagsTransitive(z.canon, y.canon, x.canon);
    }
  }

  lemma CompareTagsLaws(a: string, b: string)
    ensures CompareTags(a, b) == -CompareTags(b, a)
    ensures Parse(a).Some? && CompareTags(a, b) == 0 ==> Parse(a) == Parse(b)
  {
    if Parse(a).Some? && Parse(b).Some? {
      CompareLaws(Parse(a).value, Parse(b).value);
    }
  }

  lemma CompareTagsTransitive(a: string, b: string, c: string)
    requires CompareTags(a, b) <= 0 && CompareTags(b, c) <= 0
    ensures CompareTags(a, c) <= 0
  {
    if Parse(a).Some? && Parse(b).Some? && Parse(c).Some? {
      CompareTransitive(Parse(a).value, Parse(b).value, Parse(c).value);
    }
  }

  // Two canonical forms of equal precedence are the same text.
  lemma CanonicalEqual(s: string, t: string)
    requires NormalizeTag(s) != "" && CompareTags(NormalizeTag(s), NormalizeTag(t)) == 0
    ensures NormalizeTag(s) == NormalizeTag(t)
  {
    NormalizeIdempotent(s);
    NormalizeIdempotent(t);
    NormalizePrints(s);
    NormalizePrints(t);
    CompareTagsLaws(NormalizeTag(s), NormalizeTag(t));
  }

  lemma {:induction false} CollectExact(cur: string, tags: seq<string>, n: nat, c: Cand)
    requires n <= |tags|
    ensures c in Collect(cur, tags, n) <==> exists i :: 0 <= i < n && Chosen(cur, tags, i) && c == CandOf(tags[i])
  {
    hide NormalizeTag, Eligible, Text.TrimSpace;
    if n > 0 {
      CollectExact(cur, tags, n - 1, c);
    }
  }

  predicate Distinct(cs: seq<Cand>) {
    forall i, j :: 0 <= i < j < |cs| ==> cs[i].canon != cs[j].canon
  }

  lemma {:induction false} CollectDistinct(cur: string, tags: seq<string>, n: nat)
    requires n <= |tags|
    ensures Distinct(Collect(cur, tags, n))
  {
    hide NormalizeTag, Eligible, Text.TrimSpace;
    if n > 0 {
      CollectDistinct(cur, tags, n - 1);
      var before := Collect(cur, tags, n - 1);
      if Chosen(cur, tags, n - 1) {
        forall i | 0 <= i < |before|
          ensures before[i].canon != NormalizeTag(tags[n - 1])
        {
          CollectExact(cur, tags, n - 1, before[i]);
          var k :| 0 <= k < n - 1 && Chosen(cur, tags, k) && before[i] == CandOf(tags[k]);
          assert NormalizeTag(tags[k]) == before[i].canon;
        }
        var cs := Collect(cur, tags, n);
        forall i, j | 0 <= i < j < |cs|
          ensures cs[i].canon != cs[j].canon
        {
          assert cs[i] == before[i];
          assert cs[j] == if j < |before| then before[j] else CandOf(tags[n - 1]);
        }
      }
    }
  }

  // Every candidate is the trimmed form of a listed tag.
  lemma CollectForm(cur: string, tags: seq<string>, c: Cand)
    requires c in Collect(cur, tags, |tags|)
    ensures NormalizeTag(c.orig) == c.canon != "" && Eligible(cur, c.canon)
  {
    CollectExact(cur, tags, |tags|, c);
    var i :| 0 <= i < |tags| && Chosen(cur, tags, i) && c == CandOf(tags[i]);
    NormalizeTrimmed(tags[i]);
  }

  lemma RankedFacts(current: string, tags: seq<string>)
    ensures multiset(Ranked(current, tags)) == multiset(Collect(NormalizeTag(current), tags, |tags|))
    ensures Sorting.Sorted(Ranked(current, tags), Descending())
    ensures forall c :: c in Ranked(current, tags) <==> c in Collect(NormalizeTag(current), tags, |tags|)
  {
    var cs := Collect(NormalizeTag(current), tags, |tags|);
    DescendingIsPreorder();
    Sorting.SortPermutes(cs, Descending());
    Sorting.SortSorts(cs, Descending());
    forall c
      ensures c in Ranked(current, tags) <==> c in cs
    {
      assert c in Ranked(current, tags) <==> c in multiset(Ranked(current, tags));
      assert c in cs <==> c in multiset(cs);
    }
  }

  // Whatever sorting algorithm puts the candidates in descending order, it
  // arrives at the same ranking.
  lemma RankingIsUnique(current: string, tags: seq<string>, other: seq<Cand>)
    requires multiset(other) == multiset(Collect(NormalizeTag(current), tags, |tags|))
    requires Sorting.Sorted(other, Descending())
    ensures other == Ranked(current, tags)
  {
    var cur := NormalizeTag(current);
    var cs := Collect(cur, tags, |tags|);
    RankedFacts(current, tags);
    DescendingIsPreorder();
    forall x, y | x in multiset(other) && y in multiset(other) && Descending()(x, y) && Descending()(y, x)
      ensures x == y
    {
      assert x in cs && y in cs;
      SameRank(cur, tags, x, y);
    }
    Sorting.SortedUnique(other, Ranked(current, tags), Descending());
  }

  lemma SameRank(cur: string, tags: seq<string>, x: Cand, y: Cand)
    requires x in Collect(cur, tags, |tags|) && y in Collect(cur, tags, |tags|)
    requires CompareTags(x.canon, y.canon) >= 0 && CompareTags(y.canon, x.canon) >= 0
    ensures x == y
  {
    hide NormalizeTag, CompareTags, Eligible;
    CollectForm(cur, tags, x);
    CollectForm(cur, tags, y);
    CompareTagsLaws(x.canon, y.canon);
    CanonicalEqual(x.orig, y.orig);
    CollectDistinct(cur, tags, |tags|);
  }

  lemma {:induction false} SortDistinct(cs: seq<Cand>)
    requires Distinct(cs)
    ensures Distinct(Sorting.Sort(cs, Descending()))
  {
    if cs != [] {
      SortDistinct(cs[1..]);
      var rest := Sorting.Sort(cs[1..], Descending());
      Sorting.SortPermutes(cs[1..], Descending());
      forall i | 0 <= i < |rest|
        ensures rest[i].canon != cs[0].canon
      {
        assert rest[i] in multiset(rest);
        assert rest[i] in cs[1..];
      }
      InsertDistinct(cs[0], rest);
      assert Sorting.Sort(cs, Descending()) == Sorting.Insert(cs[0], rest, Descending());
    }
  }

  lemma {:induction false} InsertDistinct(c: Cand, cs: seq<Cand>)
    requires Distinct(cs)
    requires forall i :: 0 <= i < |cs| ==> cs[i].canon != c.canon
    ensures Distinct(Sorting.Insert(c, cs, Descending()))
  {
    if cs != [] && !Descending()(c, cs[0]) {
      InsertDistinct(c, cs[1..]);
      var r := Sorting.Insert(c, cs[1..], Descending());
      Sorting.InsertPermutes(c, cs[1..], Descending());
      forall i | 0 <= i < |r|
        ensures r[i].canon != cs[0].canon
      {
        assert r[i] in multiset(r);
        assert r[i] == c || r[i] in cs[1..];
      }
    }
  }

  lemma CompareTagsMeans(s: string, t: string)
    requires TagVersion(s).Some? && TagVersion(t).Some?
    ensures CompareTags(NormalizeTag(s), NormalizeTag(t)) > 0 <==> Lower(TagVersion(t).value, TagVersion(s).value)
  {
    hide NormalizeTag, Lower, Compare, TagVersion;
    NormalizeIdempotent(s);
    NormalizeIdempotent(t);
    NormalizePrints(s);
    NormalizePrints(t);
    PrecedenceExactly(TagVersion(s).value, TagVersion(t).value);
  }

  lemma VersionOf(tag: string)
    ensures NormalizeTag(tag) != "" <==> TagVersion(tag).Some?
    ensures NormalizeTag(tag) != "" ==> Parse(NormalizeTag(tag)) == TagVersion(tag)
  {
    hide NormalizeTag, TagVersion;
    NormalizePrints(tag);
    NormalizeIdempotent(tag);
  }

  lemma SeenMeans(tags: seq<string>, i: nat)
    requires i < |tags| && TagVersion(tags[i]).Some?
    ensures SeenBefore(tags, i, NormalizeTag(tags[i])) <==>
            exists j :: 0 <= j < i && TagVersion(tags[j]) == TagVersion(tags[i])
  {
    hide NormalizeTag, TagVersion;
    forall j | 0 <= j < i
      ensures NormalizeTag(tags[j]) == NormalizeTag(tags[i]) <==> TagVersion(tags[j]) == TagVersion(tags[i])
    {
      VersionOf(tags[j]);
      VersionOf(tags[i]);
      if TagVersion(tags[j]).Some? {
        NormalizeAlike(tags[j], tags[i]);
      }
    }
  }

  lemma ChosenMeans(current: string, tags: seq<string>, i: nat)
    requires i < |tags|
    ensures Chosen(NormalizeTag(current), tags, i) <==> Offerable(current, tags, i)
  {
    hide NormalizeTag, TagVersion, Lower, CompareTags, SeenBefore;
    VersionOf(current);
    VersionOf(tags[i]);
    if TagVersion(tags[i]).Some? {
      SeenMeans(tags, i);
      if TagVersion(current).Some? {
        CompareTagsMeans(tags[i], current);
      }
    }
  }

  // Unlimited, the list holds the first publication of every version above the
  // current one, trimmed, and nothing else.
  lemma PickedExact(current: string, tags: seq<string>, max: nat, tag: string)
    requires |tags| <= max
    ensures tag in Picked(current, tags, max) <==>
            exists i :: 0 <= i < |tags| && Offerable(current, tags, i) && tag == Text.TrimSpace(tags[i])
  {
    hide NormalizeTag, Eligible, Text.TrimSpace, Offerable;
    var cur := NormalizeTag(current);
    var ranked := Ranked(current, tags);
    RankedFacts(current, tags);
    CollectSize(cur, tags, |tags|);
    assert |ranked| == |multiset(ranked)| == |multiset(Collect(cur, tags, |tags|))|;
    if tag in Picked(current, tags, max) {
      var k :| 0 <= k < |ranked| && Origs(ranked)[k] == tag;
      CollectExact(cur, tags, |tags|, ranked[k]);
      var i :| 0 <= i < |tags| && Chosen(cur, tags, i) && ranked[k] == CandOf(tags[i]);
      ChosenMeans(current, tags, i);
    }
    if i :| 0 <= i < |tags| && Offerable(current, tags, i) && tag == Text.TrimSpace(tags[i]) {
      ChosenMeans(current, tags, i);
      CollectExact(cur, tags, |tags|, CandOf(tags[i]));
      var k :| 0 <= k < |ranked| && ranked[k] == CandOf(tags[i]);
      assert Origs(ranked)[k] == tag;
    }
  }

  // The same for the whole list, and its order
  lemma PickedAll(current: string, tags: seq<string>, max: nat)
    ensures var out := Picked(current, tags, max);
            && (forall i, j :: 0 <= i < j < |out| ==> Above(out[i], out[j]))
            && (|tags| <= max ==>
                  forall tag :: tag in out <==>
                    exists i :: 0 <= i < |tags| && Offerable(current, tags, i) && tag == Text.TrimSpace(tags[i]))
  {
    hide Picked, Offerable, Text.TrimSpace;
    PickedDescends(current, tags, max);
    if |tags| <= max {
      forall tag
        ensures tag in Picked(current, tags, max) <==>
                exists i :: 0 <= i < |tags| && Offerable(current, tags, i) && tag == Text.TrimSpace(tags[i])
      {
        PickedExact(current, tags, max, tag);
      }
    }
  }

  lemma {:induction false} CollectSize(cur: string, tags: seq<string>, n: nat)
    requires n <= |tags|
    ensures |Collect(cur, tags, n)| <= n
  {
    if n > 0 {
      CollectSize(cur, tags, n - 1);
    }
  }

  // A smaller limit gives a prefix of what a larger one gives.
  lemma SmallerIsPrefix(current: string, tags: seq<string>, m: nat, n: nat)
    requires m <= n
    ensures Picked(current, tags, m) <= Picked(current, tags, n)
    ensures |Picked(current, tags, m)| == if |Picked(current, tags, n)| < m then |Picked(current, tags, n)| else m
  {
    var ranked := Ranked(current, tags);
    if |ranked| > n {
      assert ranked[..n][..m] == ranked[..m];
    }
  }

  lemma RankedForm(current: string, tags: seq<string>, i: nat)
    requires i < |Ranked(current, tags)|
    ensures var c := Ranked(current, tags)[i];
            NormalizeTag(c.orig) == c.canon != "" && Eligible(NormalizeTag(current), c.canon)
  {
    RankedFacts(current, tags);
    assert Ranked(current, tags)[i] in Ranked(current, tags);
    CollectForm(NormalizeTag(current), tags, Ranked(current, tags)[i]);
  }

  lemma RankedDescends(current: string, tags: seq<string>, i: nat, j: nat)
    requires i < j < |Ranked(current, tags)|
    ensures CompareTags(Ranked(current, tags)[i].canon, Ranked(current, tags)[j].canon) > 0
  {
    var ranked := Ranked(current, tags);
    RankedFacts(current, tags);
    CollectDistinct(NormalizeTag(current), tags, |tags|);
    SortDistinct(Collect(NormalizeTag(current), tags, |tags|));
    assert ranked[i].canon != ranked[j].canon;
    assert Descending()(ranked[i], ranked[j]);
    RankedForm(current, tags, i);
    RankedForm(current, tags, j);
    if CompareTags(ranked[i].canon, ranked[j].canon) == 0 {
      CanonicalEqual(ranked[i].orig, ranked[j].orig);
    }
  }

  // The offered tags are versions above the current one, each above the next.
  lemma PickedDescends(current: string, tags: seq<string>, max: nat)
    ensures var out := Picked(current, tags, max);
            && (forall i :: 0 <= i < |out| ==> NormalizeTag(out[i]) != "" && Eligible(NormalizeTag(current), NormalizeTag(out[i])))
            && (forall i, j :: 0 <= i < j < |out| ==> CompareTags(NormalizeTag(out[i]), NormalizeTag(out[j])) > 0)
            && (forall i :: 0 <= i < |out| && TagVersion(current).Some? ==> Above(out[i], current))
            && (forall i, j :: 0 <= i < j < |out| ==> Above(out[i], out[j]))
  {
    hide NormalizeTag, CompareTags, TagVersion, Lower;
    var out := Picked(current, tags, max);
    forall i | 0 <= i < |out|
      ensures out[i] == Ranked(current, tags)[i].orig
      ensures NormalizeTag(out[i]) == Ranked(current, tags)[i].canon != "" && Eligible(NormalizeTag(current), NormalizeTag(out[i]))
      ensures TagVersion(out[i]).Some? && (TagVersion(current).Some? ==> Above(out[i], current))
    {
      RankedForm(current, tags, i);
      VersionOf(out[i]);
      VersionOf(current);
      if TagVersion(current).Some? {
        CompareTagsMeans(out[i], current);
      }
    }
    forall i, j | 0 <= i < j < |out|
      ensures CompareTags(NormalizeTag(out[i]), NormalizeTag(out[j])) > 0 && Above(out[i], out[j])
    {
      RankedDescends(current, tags, i, j);
      CompareTagsMeans(out[i], out[j]);
    }
  }

  // So releases are offered by descending numbers.
  lemma ReleasesDescend(current: string, tags: seq<string>, max: nat, i: nat, j: nat)
    requires i < j < |Picked(current, tags, max)|
    ensures var out := Picked(current, tags, max);
            && TagVersion(out[i]).Some? && TagVersion(out[j]).Some?
            && var v, w := TagVersion(out[i]).value, TagVersion(out[j]).value;
               (v.pre == [] && w.pre == [] ==>
                  || Text.Value(v.major) > Text.Value(w.major)
                  || (Text.Value(v.major) == Text.Value(w.major) && Text.Value(v.minor) > Text.Value(w.minor))
                  || (Text.Value(v.major) == Text.Value(w.major) && Text.Value(v.minor) == Text.Value(w.minor)
                      && Text.Value(v.patch) > Text.Value(w.patch)))
  {
    hide Picked, TagVersion, Text.Value;
    PickedDescends(current, tags, max);
    var out := Picked(current, tags, max);
    assert Above(out[i], out[j]);
  }

  lemma PickedTrimmed(current: string, tags: seq<string>, max: nat, tag: string)
    requires tag in Picked(current, tags, max)
    ensures Text.TrimSpace(tag) == tag && tag != "" && NormalizeTag(tag) != ""
  {
    hide NormalizeTag, Eligible, Text.TrimSpace;
    var ranked := Ranked(current, tags);
    var k :| 0 <= k < |ranked| && ranked[k].orig == tag;
    RankedFacts(current, tags);
    assert ranked[k] in ranked;
    CollectForm(NormalizeTag(current), tags, ranked[k]);
    CollectExact(NormalizeTag(current), tags, |tags|, ranked[k]);
    var i :| 0 <= i < |tags| && Chosen(NormalizeTag(current), tags, i) && ranked[k] == CandOf(tags[i]);
    assert tag == Text.TrimSpace(tags[i]);
    Text.TrimSpaceIdempotent(tags[i]);
    EmptyIsNoVersion();
  }

  lemma EmptyIsNoVersion()
    ensures NormalizeTag("") == ""
  {
  }

  // -------------------------------------------------- what a request matches

  predicate Names(tag: string, canon: string) {
    tag == canon || NormalizeTag(tag) == canon
  }

  // The first listed tag that is canon or has it as canonical form.
  function Found(cands: seq<string>, canon: string): Option<string> {
    if cands == [] then None
    else if Names(cands[0], canon) then Some(cands[0])
    else Found(cands[1..], canon)
  }

  method FindCandidateByCanonical(cands: seq<string>, canon: string) returns (r: Option<string>)
    ensures r == Found(cands, canon)
  {
    hide NormalizeTag;
    for i := 0 to |cands|
      invariant Found(cands, canon) == Found(cands[i..], canon)
    {
      if cands[i] == canon { return Some(cands[i]); }
      if NormalizeTag(cands[i]) == canon { return Some(cands[i]); }
    }
    return None;
  }

  lemma {:induction false} FoundAt(cands: seq<string>, i: nat, canon: string)
    requires i < |cands| && Names(cands[i], canon)
    requires forall j :: 0 <= j < i ==> !Names(cands[j], canon)
    ensures Found(cands, canon) == Some(cands[i])
  {
    hide Names;
    if i > 0 {
      assert cands[1..][i - 1] == cands[i];
      FoundAt(cands[1..], i - 1, canon);
    }
  }

  // A tag offered in a short list is accepted against any longer one for the
  // same tags, and is used exactly as published.
  lemma OfferedIsAccepted(current: string, tags: seq<string>, shown: nat, window: nat, tag: string)
    requires shown <= window && tag in Picked(current, tags, shown)
    ensures NormalizeTag(tag) != ""
    ensures Found(Picked(current, tags, window), NormalizeTag(tag)) == Some(tag)
  {
    hide NormalizeTag, CompareTags, Eligible, Picked;
    var out := Picked(current, tags, window);
    SmallerIsPrefix(current, tags, shown, window);
    PickedDescends(current, tags, window);
    var i :| 0 <= i < |Picked(current, tags, shown)| && Picked(current, tags, shown)[i] == tag;
    assert out[i] == tag;
    forall j | 0 <= j < i
      ensures !Names(out[j], NormalizeTag(tag))
    {
      CompareTagsLaws(NormalizeTag(tag), NormalizeTag(tag));
      NormalizeIdempotent(tag);
      assert CompareTags(NormalizeTag(out[j]), NormalizeTag(out[i])) > 0;
    }
    FoundAt(out, i, NormalizeTag(tag));
  }

  // What is accepted is a listed tag with the requested canonical form; what
  // is refused names no listed tag.
  lemma {:induction false} AcceptedIsOffered(cands: seq<string>, canon: string)
    ensures var r := Found(cands, canon); r.Some? ==> r.value in cands && Names(r.value, canon)
    ensures Found(cands, canon).None? <==> forall i :: 0 <= i < |cands| ==> !Names(cands[i], canon)
    ensures NormalizeTag(canon) == canon ==> forall tag :: Names(tag, canon) <==> NormalizeTag(tag) == canon
  {
    hide NormalizeTag;
    if cands != [] {
      AcceptedIsOffered(cands[1..], canon);
      assert forall i :: 0 < i < |cands| ==> cands[i] == cands[1..][i - 1];
    }
  }
}
