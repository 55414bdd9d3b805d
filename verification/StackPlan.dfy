// stack_update.go: which image every version-aware service is pinned to after
// an update, and the compose override that says so.
module StackPlan {
  import opened Seqs
  import opened ImageRef
  import Candidates
  import SemVer
  import Sorting
  import Text

  const WINDOW: nat := 50

  datatype Entry = Entry(service: string, image: string, tag: string, original: string)

  datatype Error = UnknownService | UnsupportedNamespace | InvalidTag | HubUnavailable

  datatype Outcome<+T> = Ok(value: T) | Err(error: Error)

  // ------------------------------------------------------------- the plan

  // The entry for a requested service.  hub holds the tags Docker Hub lists
  // for it; a missing key is a failed query.
  function EntryFor(svc: string, requested: string, refs: map<string, ImageRef>, hub: map<string, seq<string>>)
    : Outcome<Entry>
  {
    if svc !in refs then Err(UnknownService)
    else if !VersionAware(refs[svc].ns) then Err(UnsupportedNamespace)
    else if SemVer.NormalizeTag(requested) == "" then Err(InvalidTag)
    else if svc !in hub then Err(HubUnavailable)
    else
      var ref := refs[svc];
      var offered := Candidates.Picked(ref.tag, hub[svc], WINDOW);
      match Candidates.Found(offered, SemVer.NormalizeTag(requested))
      case None => Err(InvalidTag)
      case Some(published) =>
        Ok(Entry(svc, Render(ref.ns, ref.repo, published), published, Text.TrimSpace(requested)))
  }

  // Whether a tag the versions page could offer names the requested version
  predicate Publishes(ref: ImageRef, tags: seq<string>, requested: string, tag: string) {
    && tag in Candidates.Picked(ref.tag, tags, 50)
    && SemVer.TagVersion(requested).Some? && SemVer.TagVersion(tag) == SemVer.TagVersion(requested)
  }

  // When a service can be updated, and what the plan then says of it.
  lemma EntryExactly(svc: string, requested: string, refs: map<string, ImageRef>, hub: map<string, seq<string>>)
    ensures var r := EntryFor(svc, requested, refs, hub);
            && (r == Err(UnknownService) <==> svc !in refs)
            && (r == Err(UnsupportedNamespace) <==> svc in refs && !VersionAware(refs[svc].ns))
            && (r == Err(HubUnavailable) <==>
                  svc in refs && VersionAware(refs[svc].ns) && SemVer.TagVersion(requested).Some? && svc !in hub)
            && (r.Ok? <==> svc in refs && VersionAware(refs[svc].ns) && svc in hub
                           && exists tag :: Publishes(refs[svc], hub[svc], requested, tag))
            && (r.Ok? ==> svc in refs && svc in hub && Publishes(refs[svc], hub[svc], requested, r.value.tag)
                          && r.value.service == svc && r.value.original == Text.TrimSpace(requested)
                          && r.value.image == refs[svc].ns + "/" + refs[svc].repo + ":" + r.value.tag)
  {
    hide SemVer.NormalizeTag, SemVer.TagVersion, Candidates.Picked, Candidates.Found, Text.TrimSpace, VersionAware;
    SemVer.NormalizePrints(requested);
    if svc in refs && svc in hub {
      var offered := Candidates.Picked(refs[svc].tag, hub[svc], WINDOW);
      FoundPublishes(refs[svc], hub[svc], requested);
    }
    Candidates.VersionOf(requested);
  }

  lemma FoundPublishes(ref: ImageRef, tags: seq<string>, requested: string)
    ensures var r := Candidates.Found(Candidates.Picked(ref.tag, tags, 50), SemVer.NormalizeTag(requested));
            SemVer.TagVersion(requested).Some? ==>
              && (r.Some? <==> exists tag :: Publishes(ref, tags, requested, tag))
              && (r.Some? ==> Publishes(ref, tags, requested, r.value))
  {
    hide SemVer.NormalizeTag, SemVer.TagVersion, Candidates.Picked, Candidates.Found, Candidates.Names;
    var offered, canon := Candidates.Picked(ref.tag, tags, 50), SemVer.NormalizeTag(requested);
    Candidates.AcceptedIsOffered(offered, canon);
    if SemVer.TagVersion(requested).Some? {
      SemVer.NormalizeIdempotent(requested);
      forall tag
        ensures Candidates.Names(tag, canon) <==> SemVer.TagVersion(tag) == SemVer.TagVersion(requested)
      {
        NamesVersion(tag, requested);
      }
      var r := Candidates.Found(offered, canon);
      if r.Some? {
        assert Publishes(ref, tags, requested, r.value);
      } else {
        forall tag | tag in offered
          ensures !Publishes(ref, tags, requested, tag)
        {
          var i :| 0 <= i < |offered| && offered[i] == tag;
          assert !Candidates.Names(offered[i], canon);
        }
      }
    }
  }

  lemma NamesVersion(tag: string, requested: string)
    requires SemVer.TagVersion(requested).Some?
    ensures Candidates.Names(tag, SemVer.NormalizeTag(requested)) <==> SemVer.TagVersion(tag) == SemVer.TagVersion(requested)
  {
    hide SemVer.NormalizeTag, SemVer.TagVersion;
    SemVer.NormalizeIdempotent(requested);
    Candidates.VersionOf(requested);
    Candidates.VersionOf(tag);
    if SemVer.TagVersion(tag).Some? {
      SemVer.NormalizeAlike(tag, requested);
    }
  }

  // The services are visited in an arbitrary order; the first failure ends it.
  method BuildPlan(order: seq<string>, requested: map<string, string>, refs: map<string, ImageRef>,
                   hub: map<string, seq<string>>) returns (r: Outcome<seq<Entry>>)
    requires Enumerates(order, requested.Keys)
    ensures r.Ok? ==> |r.value| == |order|
    ensures r.Ok? ==> forall i :: 0 <= i < |order| ==> EntryFor(order[i], requested[order[i]], refs, hub) == Ok(r.value[i])
    ensures r.Err? ==> exists i :: 0 <= i < |order| && EntryFor(order[i], requested[order[i]], refs, hub) == Err(r.error)
                                && forall j :: 0 <= j < i ==> EntryFor(order[j], requested[order[j]], refs, hub).Ok?
  {
    hide SemVer.NormalizeTag, Candidates.Picked, Candidates.Found, Text.TrimSpace, VersionAware;
    var plan: seq<Entry> := [];
    for i := 0 to |order|
      invariant |plan| == i
      invariant forall j :: 0 <= j < i ==> EntryFor(order[j], requested[order[j]], refs, hub) == Ok(plan[j])
    {
      var svc := order[i];
      if svc !in refs { return Err(UnknownService); }
      var ref := refs[svc];
      if !VersionAware(ref.ns) { return Err(UnsupportedNamespace); }
      var canonical := SemVer.NormalizeTag(requested[svc]);
      if canonical == "" { return Err(InvalidTag); }
      if svc !in hub { return Err(HubUnavailable); }
      var offered := Candidates.PickCandidateVersions(ref.tag, hub[svc], WINDOW);
      var found := Candidates.FindCandidateByCanonical(offered, canonical);
      if found.None? { return Err(InvalidTag); }
      plan := plan + [Entry(svc, Render(ref.ns, ref.repo, found.value), found.value, Text.TrimSpace(requested[svc]))];
    }
    return Ok(plan);
  }

  // A running service that keeps its tag
  predicate Pinned(svc: string, refs: map<string, ImageRef>, requested: map<string, string>) {
    svc in refs && svc !in requested && VersionAware(refs[svc].ns) && refs[svc].tag != ""
  }

  function PinFor(svc: string, ref: ImageRef): Entry {
    Entry(svc, Render(ref.ns, ref.repo, ref.tag), ref.tag, ref.tag)
  }

  method ExtendPlanWithCurrentPins(plan: seq<Entry>, order: seq<string>, refs: map<string, ImageRef>,
                                   requested: map<string, string>) returns (r: seq<Entry>)
    requires Enumerates(order, refs.Keys)
    ensures plan <= r
    ensures forall e :: e in r[|plan|..] <==> Pinned(e.service, refs, requested) && e == PinFor(e.service, refs[e.service])
    ensures forall i, j :: |plan| <= i < j < |r| ==> r[i].service != r[j].service
  {
    hide VersionAware;
    var pins: seq<Entry> := [];
    for k := 0 to |order|
      invariant forall e ::
        e in pins <==> e.service in order[..k] && Pinned(e.service, refs, requested) && e == PinFor(e.service, refs[e.service])
      invariant forall i, j :: 0 <= i < j < |pins| ==> pins[i].service != pins[j].service
    {
      var svc := order[k];
      var ref := refs[svc];
      assert order[..k + 1] == order[..k] + [svc];
      assert svc !in order[..k];
      if svc !in requested && VersionAware(ref.ns) && ref.tag != "" {
        assert forall i :: 0 <= i < |pins| ==> pins[i] in pins;
        pins := pins + [PinFor(svc, ref)];
      }
    }
    r := plan + pins;
    assert r[|plan|..] == pins && order[..|order|] == order;
  }

  // ------------------------------------------------------- what a plan holds

  // The entry the plan must hold for a service, if any.
  function Wanted(svc: string, requested: map<string, string>, refs: map<string, ImageRef>,
                  hub: map<string, seq<string>>): Option<Entry>
  {
    if svc in requested then
      var e := EntryFor(svc, requested[svc], refs, hub);
      if e.Ok? then Some(e.value) else None
    else if Pinned(svc, refs, requested) then Some(PinFor(svc, refs[svc]))
    else None
  }

  // A plan as the two steps leave it, whatever orders they visited.
  ghost predicate Complete(plan: seq<Entry>, requested: map<string, string>, refs: map<string, ImageRef>,
                           hub: map<string, seq<string>>)
  {
    && (forall i, j :: 0 <= i < j < |plan| ==> plan[i].service != plan[j].service)
    && (forall e :: e in plan <==> Wanted(e.service, requested, refs, hub) == Some(e))
    && (forall s :: s in requested ==> EntryFor(s, requested[s], refs, hub).Ok?)
  }

  method MakePlan(requestOrder: seq<string>, refOrder: seq<string>, requested: map<string, string>,
                  refs: map<string, ImageRef>, hub: map<string, seq<string>>)
    returns (r: Outcome<seq<Entry>>, changed: seq<string>)
    requires Enumerates(requestOrder, requested.Keys) && Enumerates(refOrder, refs.Keys)
    ensures r.Ok? <==> forall s :: s in requested ==> EntryFor(s, requested[s], refs, hub).Ok?
    ensures r.Ok? ==> Complete(r.value, requested, refs, hub) && changed == requestOrder
  {
    hide EntryFor, Pinned, PinFor;
    r := BuildPlan(requestOrder, requested, refs, hub);
    changed := [];
    if r.Err? {
      var i :| 0 <= i < |requestOrder| && EntryFor(requestOrder[i], requested[requestOrder[i]], refs, hub) == Err(r.error);
      assert requestOrder[i] in requested.Keys;
      return;
    }
    var plan := r.value;
    EntriesNamed(requestOrder, plan, requested, refs, hub);
    for i := 0 to |plan|
      invariant changed == requestOrder[..i]
    {
      changed := changed + [plan[i].service];
    }
    var all := ExtendPlanWithCurrentPins(plan, refOrder, refs, requested);
    PlanIsComplete(requestOrder, plan, all, requested, refs, hub);
    r := Ok(all);
  }

  lemma EntriesNamed(order: seq<string>, plan: seq<Entry>, requested: map<string, string>,
                     refs: map<string, ImageRef>, hub: map<string, seq<string>>)
    requires Enumerates(order, requested.Keys) && |plan| == |order|
    requires forall i :: 0 <= i < |order| ==> EntryFor(order[i], requested[order[i]], refs, hub) == Ok(plan[i])
    ensures forall i :: 0 <= i < |order| ==> plan[i].service == order[i]
  {
    forall i | 0 <= i < |order|
      ensures plan[i].service == order[i]
    {
      EntryService(order[i], requested[order[i]], refs, hub);
    }
  }

  lemma EntryService(svc: string, requested: string, refs: map<string, ImageRef>, hub: map<string, seq<string>>)
    ensures var e := EntryFor(svc, requested, refs, hub); e.Ok? ==> e.value.service == svc
  {
    hide SemVer.NormalizeTag, Candidates.Picked, Candidates.Found, Text.TrimSpace, VersionAware;
  }

  lemma PlanIsComplete(order: seq<string>, plan: seq<Entry>, all: seq<Entry>, requested: map<string, string>,
                       refs: map<string, ImageRef>, hub: map<string, seq<string>>)
    requires Enumerates(order, requested.Keys) && |plan| == |order| && plan <= all
    requires forall i :: 0 <= i < |order| ==>
               EntryFor(order[i], requested[order[i]], refs, hub) == Ok(plan[i]) && plan[i].service == order[i]
    requires forall e :: e in all[|plan|..] <==> Pinned(e.service, refs, requested) && e == PinFor(e.service, refs[e.service])
    requires forall i, j :: |plan| <= i < j < |all| ==> all[i].service != all[j].service
    ensures Complete(all, requested, refs, hub)
  {
    hide EntryFor;
    var n := |plan|;
    forall i | 0 <= i < |all|
      ensures Wanted(all[i].service, requested, refs, hub) == Some(all[i])
      ensures i < n <==> all[i].service in requested
    {
      if i < n {
        assert order[i] in requested.Keys && all[i] == plan[i];
      } else {
        assert all[i] == all[n..][i - n] && all[i] in all[n..];
      }
    }
    forall e: Entry | Wanted(e.service, requested, refs, hub) == Some(e)
      ensures e in all
    {
      if e.service in requested {
        assert e.service in order;
        var i :| 0 <= i < n && order[i] == e.service;
        EntryService(order[i], requested[order[i]], refs, hub);
        assert all[i] == e;
      } else {
        assert e in all[n..];
      }
    }
    forall s | s in requested
      ensures EntryFor(s, requested[s], refs, hub).Ok?
    {
      assert s in order;
    }
    assert forall i, j :: 0 <= i < j < n ==> order[i] != order[j];
  }

  // Exactly one entry per requested service and per version-aware service
  // that was not requested and has a tag; none for any other.
  lemma OneEntryEach(plan: seq<Entry>, requested: map<string, string>, refs: map<string, ImageRef>,
                     hub: map<string, seq<string>>, svc: string)
    requires Complete(plan, requested, refs, hub)
    ensures Count(plan, For(svc)) == if svc in requested || Pinned(svc, refs, requested) then 1 else 0
  {
    hide EntryFor, Pinned, PinFor;
    if svc in requested || Pinned(svc, refs, requested) {
      var e := Wanted(svc, requested, refs, hub).value;
      WantedService(svc, requested, refs, hub);
      assert e in plan;
      var i :| 0 <= i < |plan| && plan[i] == e;
      CountSome(plan, For(svc), i);
      CountAtMostOne(plan, For(svc));
    } else {
      forall i | 0 <= i < |plan|
        ensures plan[i].service != svc
      {
        assert plan[i] in plan;
      }
      CountNone(plan, For(svc));
    }
  }

  function For(svc: string): Entry -> bool {
    (e: Entry) => e.service == svc
  }

  lemma WantedService(svc: string, requested: map<string, string>, refs: map<string, ImageRef>, hub: map<string, seq<string>>)
    ensures var w := Wanted(svc, requested, refs, hub); w.Some? ==> w.value.service == svc
  {
    if svc in requested {
      EntryService(svc, requested[svc], refs, hub);
    }
  }

  // --------------------------------------------------- the compose override

  const HEADER := "# Generated by selenwright stack update — do not edit by hand.\nservices:\n"

  function ByService(): (Entry, Entry) -> bool {
    (a: Entry, b: Entry) => Text.StrLe(a.service, b.service)
  }

  function Line(e: Entry): string {
    "  " + e.service + ":\n    image: " + e.image + "\n"
  }

  function Lines(plan: seq<Entry>, n: nat): string
    requires n <= |plan|
  {
    if n == 0 then "" else Lines(plan, n - 1) + Line(plan[n - 1])
  }

  function Rendered(plan: seq<Entry>): string {
    var ordered := Sorting.Sort(plan, ByService());
    HEADER + Lines(ordered, |ordered|)
  }

  method RenderOverrideYAML(plan: seq<Entry>) returns (yaml: string)
    ensures yaml == Rendered(plan)
  {
    var ordered := Sorting.Sort(plan, ByService());
    yaml := HEADER;
    for i := 0 to |ordered|
      invariant yaml == HEADER + Lines(ordered, i)
    {
      yaml := yaml + Line(ordered[i]);
    }
  }

  lemma ByServiceIsPreorder()
    ensures Sorting.TotalPreorder(ByService())
  {
    var le := ByService();
    forall x, y
      ensures le(x, y) || le(y, x)
    {
      Text.StrLeTotal(x.service, y.service);
    }
    forall x, y, z | le(x, y) && le(y, z)
      ensures le(x, z)
    {
      Text.StrLeTransitive(x.service, y.service, z.service);
    }
  }

  // The override does not depend on the orders in which the maps were
  // visited, nor on the sorting algorithm.
  lemma RenderingIsUnique(a: seq<Entry>, b: seq<Entry>, requested: map<string, string>, refs: map<string, ImageRef>,
                          hub: map<string, seq<string>>)
    requires Complete(a, requested, refs, hub) && Complete(b, requested, refs, hub)
    ensures Rendered(a) == Rendered(b)
    ensures forall sorted :: multiset(sorted) == multiset(a) && Sorting.Sorted(sorted, ByService()) ==>
              sorted == Sorting.Sort(b, ByService())
  {
    hide Wanted, EntryFor;
    SameElements(a, b);
    Sorting.SortPermutes(a, ByService());
    Sorting.SortPermutes(b, ByService());
    ByServiceIsPreorder();
    Sorting.SortSorts(a, ByService());
    Sorting.SortSorts(b, ByService());
    forall x, y | x in multiset(a) && y in multiset(a) && ByService()(x, y) && ByService()(y, x)
      ensures x == y
    {
      Text.StrLeTotal(x.service, y.service);
      assert x in a && y in a;
    }
    forall sorted | multiset(sorted) == multiset(a) && Sorting.Sorted(sorted, ByService())
      ensures sorted == Sorting.Sort(b, ByService())
    {
      Sorting.SortedUnique(sorted, Sorting.Sort(b, ByService()), ByService());
    }
  }

  // ------------------------------------------------- reading the override

  // The services and their images in an override's lines, two for each, with
  // nothing behind the last newline.
  function ReadLines(lines: seq<string>): Option<seq<(string, string)>> {
    if lines == [""] then Some([])
    else if |lines| < 3 || !("  " <= lines[0]) || |lines[0]| < 3 || lines[0][|lines[0]| - 1] != ':'
            || !("    image: " <= lines[1]) then None
    else
      match ReadLines(lines[2..])
      case None => None
      case Some(rest) => Some([(lines[0][2..|lines[0]| - 1], lines[1][11..])] + rest)
  }

  // None when the text is not of this kind.
  function ReadOverride(text: string): Option<seq<(string, string)>> {
    if HEADER <= text then ReadLines(Text.Split(text[|HEADER|..], '\n')) else None
  }

  function Images(plan: seq<Entry>): seq<(string, string)> {
    seq(|plan|, i requires 0 <= i < |plan| => (plan[i].service, plan[i].image))
  }

  predicate OneLine(e: Entry) {
    '\n' !in e.service && '\n' !in e.image
  }

  predicate OneLiners(plan: seq<Entry>) {
    forall i :: 0 <= i < |plan| ==> OneLine(plan[i])
  }

  lemma {:induction false} LinesCons(plan: seq<Entry>, n: nat)
    requires 0 < n <= |plan|
    ensures Lines(plan, n) == Line(plan[0]) + Lines(plan[1..], n - 1)
  {
    hide Line;
    if n > 1 {
      LinesCons(plan, n - 1);
    }
  }

  lemma LineSplits(e: Entry, rest: string)
    requires OneLine(e)
    ensures Text.Split(Line(e) + rest, '\n') ==
              ["  " + e.service + ":", "    image: " + e.image] + Text.Split(rest, '\n')
  {
    var first, second := "  " + e.service + ":", "    image: " + e.image;
    assert Line(e) + rest == first + ['\n'] + (second + ['\n'] + rest);
    Text.SplitConcat(first, '\n', second + ['\n'] + rest);
    Text.SplitConcat(second, '\n', rest);
  }

  lemma {:induction false} LinesRead(plan: seq<Entry>)
    requires OneLiners(plan)
    ensures ReadLines(Text.Split(Lines(plan, |plan|), '\n')) == Some(Images(plan))
  {
    hide Line, Text.Split;
    if plan == [] {
      Text.SplitNoSep("", '\n');
    } else {
      var e, rest := plan[0], plan[1..];
      LinesCons(plan, |plan|);
      LinesRead(rest);
      LineSplits(e, Lines(rest, |rest|));
      var lines := Text.Split(Lines(plan, |plan|), '\n');
      var more := Text.Split(Lines(rest, |rest|), '\n');
      assert lines == ["  " + e.service + ":", "    image: " + e.image] + more;
      assert lines[2..] == more;
      FirstRead(lines, e);
      assert Images(plan) == [(e.service, e.image)] + Images(rest);
    }
  }

  lemma FirstRead(lines: seq<string>, e: Entry)
    requires |lines| >= 3 && lines[0] == "  " + e.service + ":" && lines[1] == "    image: " + e.image
    ensures "  " <= lines[0] && |lines[0]| >= 3 && lines[0][|lines[0]| - 1] == ':' && "    image: " <= lines[1]
    ensures lines[0][2..|lines[0]| - 1] == e.service && lines[1][11..] == e.image
  {
  }

  // Two lines for every pair read
  lemma {:induction false} ReadCounts(lines: seq<string>)
    ensures ReadLines(lines).Some? ==> |lines| == 2 * |ReadLines(lines).value| + 1
  {
    if |lines| >= 3 {
      ReadCounts(lines[2..]);
    }
  }

  lemma LineCounts(e: Entry)
    ensures |Text.Split(Line(e), '\n')| >= 3
    ensures |Text.Split(Line(e), '\n')| == 3 <==> OneLine(e)
  {
    hide Text.Split;
    assert Line(e) == "  " + (e.service + (":\n    image: " + (e.image + "\n")));
    Text.SplitLength("  ", e.service + (":\n    image: " + (e.image + "\n")), '\n');
    Text.SplitLength(e.service, ":\n    image: " + (e.image + "\n"), '\n');
    Text.SplitLength(":\n    image: ", e.image + "\n", '\n');
    Text.SplitLength(e.image, "\n", '\n');
    Text.SplitOne(e.service, '\n');
    Text.SplitOne(e.image, '\n');
    PiecesSplit();
  }

  lemma PiecesSplit()
    ensures |Text.Split("  ", '\n')| == 1 && |Text.Split("\n", '\n')| == 2 && |Text.Split(":\n    image: ", '\n')| == 2
  {
    hide Text.Split;
    Text.SplitNoSep("  ", '\n');
    Text.SplitConcat("", '\n', "");
    assert "" + ['\n'] + "" == "\n";
    Text.SplitNoSep("", '\n');
    Text.SplitConcat(":", '\n', "    image: ");
    Text.SplitNoSep("    image: ", '\n');
    assert ":" + ['\n'] + "    image: " == ":\n    image: ";
  }

  lemma {:induction false} LinesCount(plan: seq<Entry>, n: nat)
    requires n <= |plan|
    ensures |Text.Split(Lines(plan, n), '\n')| >= 2 * n + 1
    ensures |Text.Split(Lines(plan, n), '\n')| == 2 * n + 1 <==> OneLiners(plan[..n])
  {
    hide Line, Text.Split, OneLine;
    if n == 0 {
      Text.SplitNoSep("", '\n');
    } else {
      LinesCount(plan, n - 1);
      LineCounts(plan[n - 1]);
      Text.SplitLength(Lines(plan, n - 1), Line(plan[n - 1]), '\n');
      assert plan[..n] == plan[..n - 1] + [plan[n - 1]];
      assert OneLiners(plan[..n]) <==> OneLiners(plan[..n - 1]) && OneLine(plan[n - 1]) by {
        OneLinersSnoc(plan[..n - 1], plan[n - 1]);
      }
    }
  }

  lemma OneLinersSnoc(plan: seq<Entry>, e: Entry)
    ensures OneLiners(plan + [e]) <==> OneLiners(plan) && OneLine(e)
  {
    hide OneLine;
    assert (plan + [e])[|plan|] == e && forall i :: 0 <= i < |plan| ==> (plan + [e])[i] == plan[i];
  }

  // The override gives back the plan's services and images, ascending by
  // service, exactly when none of them has a line break in it.
  lemma OverrideReads(plan: seq<Entry>)
    ensures var sorted := Sorting.Sort(plan, ByService());
            && multiset(sorted) == multiset(plan)
            && (forall i, j :: 0 <= i < j < |sorted| ==> Text.StrLe(sorted[i].service, sorted[j].service))
            && (ReadOverride(Rendered(plan)) == Some(Images(sorted)) <==> OneLiners(plan))
  {
    hide Text.Split, OneLine, ReadLines, Lines;
    var sorted := Sorting.Sort(plan, ByService());
    ByServiceIsPreorder();
    Sorting.SortPermutes(plan, ByService());
    Sorting.SortSorts(plan, ByService());
    OneLinersPermuted(plan, sorted);
    var text := Rendered(plan);
    assert text == HEADER + Lines(sorted, |sorted|);
    assert text[|HEADER|..] == Lines(sorted, |sorted|);
    LinesCount(sorted, |sorted|);
    assert sorted[..|sorted|] == sorted;
    ReadCounts(Text.Split(Lines(sorted, |sorted|), '\n'));
    if OneLiners(sorted) {
      LinesRead(sorted);
    }
    assert forall i, j :: 0 <= i < j < |sorted| ==> ByService()(sorted[i], sorted[j]);
  }

  lemma OneLinersPermuted(a: seq<Entry>, b: seq<Entry>)
    requires multiset(a) == multiset(b)
    ensures OneLiners(a) <==> OneLiners(b)
  {
    hide OneLine;
    assert forall e :: e in a <==> e in multiset(a);
    assert forall e :: e in b <==> e in multiset(b);
    assert OneLiners(a) <==> forall e :: e in a ==> OneLine(e);
    assert OneLiners(b) <==> forall e :: e in b ==> OneLine(e);
  }

  // --------------------------------------------------- reading images back

  // Every pin was read from the image of a running container.
  ghost predicate Running(refs: map<string, ImageRef>) {
    forall s :: s in refs ==> exists image :: ParseImageRef(image) == Some(refs[s])
  }

  // Every image in the plan reads back as the service's namespace and
  // repository with the entry's tag, exactly when the tag does not end in a
  // blank; for a requested service it never does.  The registry is not
  // written: the whole reference survives exactly when it is Docker Hub's too.
  lemma ImagesReadBack(plan: seq<Entry>, requested: map<string, string>, refs: map<string, ImageRef>,
                       hub: map<string, seq<string>>, e: Entry)
    requires Complete(plan, requested, refs, hub) && Running(refs) && e in plan
    ensures e.service in refs && e.tag != ""
    ensures var ref := refs[e.service];
            ParseImageRef(e.image) == Some(ImageRef("docker.io", ref.ns, ref.repo, e.tag)) <==> !Text.IsSpace(e.tag[|e.tag| - 1])
    ensures ParseImageRef(e.image) == Some(refs[e.service].(tag := e.tag))
       <==> refs[e.service].registry == "docker.io" && !Text.IsSpace(e.tag[|e.tag| - 1])
    ensures e.service in requested ==> !Text.IsSpace(e.tag[|e.tag| - 1])
  {
    hide EntryFor, Pinned, PinFor, VersionAware, Parts, Text.IsSpace, ParseImageRef;
    var svc := e.service;
    assert Wanted(svc, requested, refs, hub) == Some(e);
    if svc in requested {
      RequestedEntry(svc, requested[svc], refs, hub, e);
    } else {
      PinEntry(svc, requested, refs, e);
    }
    VersionAwareIsNoHost(refs[svc].ns);
    RenderedParses(refs[svc].ns, refs[svc].repo, e.tag);
    RoundTripExact(refs[svc].ns, refs[svc].repo, e.tag);
  }

  // A service that runs an image from another registry is pinned to Docker
  // Hub's image of that name.
  lemma RegistryIsLost()
    ensures var ghcr := ImageRef("ghcr.io", "selenwright", "hub", "v1");
            && ParseImageRef("ghcr.io/selenwright/hub:v1") == Some(ghcr)
            && Pinned("hub", map["hub" := ghcr], map[])
            && PinFor("hub", ghcr).image == "selenwright/hub:v1"
            && ParseImageRef("selenwright/hub:v1") == Some(ImageRef("docker.io", "selenwright", "hub", "v1"))
  {
    hide ParseImageRef, VersionAware, Parts, LooksLikeHost, Text.IsSpace, Text.TrimRight;
    var ns, repo, tag := "selenwright", "hub", "v1";
    HubParts();
    VersionAwareIsNoHost(ns);
    assert "ghcr.io/selenwright/hub:v1" == "ghcr.io" + "/" + Render(ns, repo, tag);
    HostedParses("ghcr.io", ns, repo, tag);
    RenderedParses(ns, repo, tag);
  }

  lemma HubParts()
    ensures VersionAware("selenwright") && Parts("selenwright", "hub", "v1") && Text.TrimRight("v1") == "v1"
    ensures LooksLikeHost("ghcr.io") && '/' !in "ghcr.io" && '@' !in "ghcr.io" && !Text.IsSpace("ghcr.io"[0])
  {
    assert "ghcr.io"[4] == '.';
  }

  // What the round trip needs to know of an entry
  ghost predicate Readable(svc: string, refs: map<string, ImageRef>, e: Entry) {
    && svc in refs && VersionAware(refs[svc].ns) && Parts(refs[svc].ns, refs[svc].repo, e.tag) && e.tag != ""
    && e.image == Render(refs[svc].ns, refs[svc].repo, e.tag)
  }

  lemma RequestedEntry(svc: string, requested: string, refs: map<string, ImageRef>, hub: map<string, seq<string>>, e: Entry)
    requires Running(refs) && EntryFor(svc, requested, refs, hub) == Ok(e)
    ensures Readable(svc, refs, e) && !Text.IsSpace(e.tag[|e.tag| - 1])
  {
    hide SemVer.NormalizeTag, Candidates.Picked, Candidates.Found, VersionAware, ParseImageRef, Text.IsSpace, Text.TrimSpace;
    var image :| ParseImageRef(image) == Some(refs[svc]);
    ParsedParts(image);
    SemVer.NormalizeIdempotent(requested);
    PublishedTag(refs[svc].tag, hub[svc], SemVer.NormalizeTag(requested));
  }

  lemma PinEntry(svc: string, requested: map<string, string>, refs: map<string, ImageRef>, e: Entry)
    requires Running(refs) && Pinned(svc, refs, requested) && e == PinFor(svc, refs[svc])
    ensures Readable(svc, refs, e)
  {
    hide VersionAware, ParseImageRef;
    var image :| ParseImageRef(image) == Some(refs[svc]);
    ParsedParts(image);
  }

  lemma PublishedTag(current: string, tags: seq<string>, canon: string)
    requires canon != "" && SemVer.NormalizeTag(canon) == canon && Candidates.Found(Candidates.Picked(current, tags, WINDOW), canon).Some?
    ensures var tag := Candidates.Found(Candidates.Picked(current, tags, WINDOW), canon).value;
            tag != "" && '/' !in tag && ':' !in tag && '@' !in tag && !Text.IsSpace(tag[|tag| - 1])
  {
    hide SemVer.NormalizeTag, Candidates.Eligible;
    var offered := Candidates.Picked(current, tags, WINDOW);
    var tag := Candidates.Found(offered, canon).value;
    Candidates.AcceptedIsOffered(offered, canon);
    Candidates.PickedTrimmed(current, tags, WINDOW, tag);
    PublishedParts(tag);
  }

  // A tag the versions page offered is accepted and used as published.
  lemma OfferedUpdates(svc: string, tag: string, refs: map<string, ImageRef>, hub: map<string, seq<string>>, shown: nat)
    requires svc in refs && VersionAware(refs[svc].ns) && svc in hub && shown <= WINDOW
    requires tag in Candidates.Picked(refs[svc].tag, hub[svc], shown)
    ensures EntryFor(svc, tag, refs, hub) == Ok(Entry(svc, Render(refs[svc].ns, refs[svc].repo, tag), tag, tag))
  {
    hide SemVer.NormalizeTag, Candidates.Eligible, VersionAware;
    Candidates.OfferedIsAccepted(refs[svc].tag, hub[svc], shown, WINDOW, tag);
    Candidates.PickedTrimmed(refs[svc].tag, hub[svc], shown, tag);
  }
}
