// discovery/discovery.go ScanImages and discovery/catalog.go
// buildBrowsersFromAdopted: from the daemon's image list to the browser
// catalog.
module Discovery {
  import opened Seqs
  import Catalog
  import Sorting

  // What an image's labels say; None in Image stands for unusable labels.
  datatype Labels = Labels(name: string, version: string, isDefault: bool)

  datatype Image = Image(digest: string, labels: Option<Labels>, repoTags: seq<string>, created: int)

  datatype Found = Found(digest: string, ref: string, name: string, version: string, isDefault: bool, created: int)

  datatype Key = Key(name: string, version: string)

  predicate Usable(img: Image) {
    img.digest != "" && img.labels.Some?
  }

  function KeyOf(img: Image): Key
    requires Usable(img)
  {
    Key(img.labels.value.name, img.labels.value.version)
  }

  function FoundOf(img: Image): Found
    requires Usable(img)
  {
    var l := img.labels.value;
    Found(img.digest, if img.repoTags != [] then img.repoTags[0] else img.digest, l.name, l.version, l.isDefault, img.created)
  }

  // ------------------------------------------------------------ group by key

  predicate IsOf(imgs: seq<Image>, i: nat, k: Key)
    requires i < |imgs|
  {
    Usable(imgs[i]) && KeyOf(imgs[i]) == k
  }

  predicate SeenBefore(imgs: seq<Image>, n: nat, k: Key)
    requires n <= |imgs|
  {
    exists i :: 0 <= i < n && IsOf(imgs, i, k)
  }

  // The keys of the first n images, by first appearance.
  function Keys(imgs: seq<Image>, n: nat): seq<Key>
    requires n <= |imgs|
  {
    if n == 0 then []
    else if Usable(imgs[n - 1]) && !SeenBefore(imgs, n - 1, KeyOf(imgs[n - 1])) then
      Keys(imgs, n - 1) + [KeyOf(imgs[n - 1])]
    else Keys(imgs, n - 1)
  }

  // Image i is the one to keep for k among the first n: the latest, and of
  // several latest the one listed first.
  predicate Wins(imgs: seq<Image>, n: nat, i: nat, k: Key)
    requires n <= |imgs|
  {
    && i < n && IsOf(imgs, i, k)
    && (forall j :: 0 <= j < n && IsOf(imgs, j, k) ==> imgs[j].created <= imgs[i].created)
    && (forall j :: 0 <= j < i && IsOf(imgs, j, k) ==> imgs[j].created < imgs[i].created)
  }

  ghost predicate IsBest(imgs: seq<Image>, n: nat, d: Found, k: Key)
    requires n <= |imgs|
  {
    exists i: nat :: Wins(imgs, n, i, k) && d == FoundOf(imgs[i])
  }

  // result holds the winner of every key, in the keys' order.
  ghost predicate Grouped(imgs: seq<Image>, n: nat, result: seq<Found>)
    requires n <= |imgs|
  {
    && |result| == |Keys(imgs, n)|
    && forall x :: 0 <= x < |result| ==> IsBest(imgs, n, result[x], Keys(imgs, n)[x])
  }

  method ScanImages(imgs: seq<Image>) returns (result: seq<Found>)
    ensures Grouped(imgs, |imgs|, result)
  {
    hide FoundOf, IsBest;
    var seen: map<Key, nat> := map[];
    result := [];
    for n := 0 to |imgs|
      invariant Grouped(imgs, n, result)
      invariant forall k :: k in seen <==> SeenBefore(imgs, n, k)
      invariant forall k :: k in seen ==> seen[k] < |result| && Keys(imgs, n)[seen[k]] == k
    {
      var img := imgs[n];
      SeenStep(imgs, n);
      KeysDistinct(imgs, n);
      if img.digest == "" || img.labels.None? {
        SkipStep(imgs, n, result);
        continue;
      }
      var di := Found(img.digest, if |img.repoTags| > 0 then img.repoTags[0] else img.digest,
                      img.labels.value.name, img.labels.value.version, img.labels.value.isDefault, img.created);
      assert di == FoundOf(img) by { FoundIs(img); }
      var k := Key(di.name, di.version);
      if k in seen {
        var idx := seen[k];
        if img.created > result[idx].created {
          ReplaceStep(imgs, n, result, idx);
          result := result[idx := di];
        } else {
          KeepStep(imgs, n, result, idx);
        }
      } else {
        NewStep(imgs, n, result);
        seen := seen[k := |result|];
        result := result + [di];
      }
    }
  }

  lemma FoundIs(img: Image)
    requires Usable(img)
    ensures var l := img.labels.value;
            FoundOf(img) == Found(img.digest, if |img.repoTags| > 0 then img.repoTags[0] else img.digest,
                                  l.name, l.version, l.isDefault, img.created)
  {
  }

  lemma SeenStep(imgs: seq<Image>, n: nat)
    requires n < |imgs|
    ensures forall k :: SeenBefore(imgs, n + 1, k) <==> SeenBefore(imgs, n, k) || IsOf(imgs, n, k)
  {
    forall k
      ensures SeenBefore(imgs, n + 1, k) <==> SeenBefore(imgs, n, k) || IsOf(imgs, n, k)
    {
      if SeenBefore(imgs, n + 1, k) {
        var i :| 0 <= i < n + 1 && IsOf(imgs, i, k);
        assert i < n || IsOf(imgs, n, k);
      }
    }
  }

  // The keys are the distinct keys of the usable images.
  lemma {:induction false} KeysDistinct(imgs: seq<Image>, n: nat)
    requires n <= |imgs|
    ensures NoDuplicates(Keys(imgs, n))
    ensures forall k :: k in Keys(imgs, n) <==> SeenBefore(imgs, n, k)
  {
    if n > 0 {
      KeysDistinct(imgs, n - 1);
      SeenStep(imgs, n - 1);
    }
  }

  function FirstOf(imgs: seq<Image>, n: nat, k: Key): (i: nat)
    requires n <= |imgs| && SeenBefore(imgs, n, k)
    ensures i < n && IsOf(imgs, i, k) && !SeenBefore(imgs, i, k)
  {
    if SeenBefore(imgs, n - 1, k) then FirstOf(imgs, n - 1, k)
    else
      assert IsOf(imgs, n - 1, k) by { SeenStep(imgs, n - 1); }
      n - 1
  }

  lemma FirstStays(imgs: seq<Image>, n: nat, k: Key)
    requires n < |imgs| && SeenBefore(imgs, n, k) && SeenBefore(imgs, n + 1, k)
    ensures FirstOf(imgs, n + 1, k) == FirstOf(imgs, n, k)
  {
  }

  // An earlier key appeared earlier.
  lemma {:induction false} KeysInOrder(imgs: seq<Image>, n: nat, x: nat, y: nat)
    requires n <= |imgs| && x < y < |Keys(imgs, n)|
    ensures SeenBefore(imgs, n, Keys(imgs, n)[x]) && SeenBefore(imgs, n, Keys(imgs, n)[y])
    ensures FirstOf(imgs, n, Keys(imgs, n)[x]) < FirstOf(imgs, n, Keys(imgs, n)[y])
  {
    var keys := Keys(imgs, n);
    KeysDistinct(imgs, n);
    assert keys[x] in keys && keys[y] in keys;
    var before := Keys(imgs, n - 1);
    KeysDistinct(imgs, n - 1);
    assert keys[x] == before[x] && before[x] in before;
    FirstStays(imgs, n - 1, keys[x]);
    if y < |before| {
      assert keys[y] == before[y] && before[y] in before;
      FirstStays(imgs, n - 1, keys[y]);
      KeysInOrder(imgs, n - 1, x, y);
    }
  }

  // ------------------------------------------------- one image at a time

  lemma BestOther(imgs: seq<Image>, n: nat, d: Found, k: Key)
    requires n < |imgs| && IsBest(imgs, n, d, k) && !IsOf(imgs, n, k)
    ensures IsBest(imgs, n + 1, d, k)
  {
    var i: nat :| Wins(imgs, n, i, k) && d == FoundOf(imgs[i]);
    assert Wins(imgs, n + 1, i, k);
  }

  lemma BestKeep(imgs: seq<Image>, n: nat, d: Found, k: Key)
    requires n < |imgs| && IsBest(imgs, n, d, k) && imgs[n].created <= d.created
    ensures IsBest(imgs, n + 1, d, k)
  {
    var i: nat :| Wins(imgs, n, i, k) && d == FoundOf(imgs[i]);
    assert Wins(imgs, n + 1, i, k);
  }

  lemma BestLater(imgs: seq<Image>, n: nat, d: Found, k: Key)
    requires n < |imgs| && IsOf(imgs, n, k) && IsBest(imgs, n, d, k) && imgs[n].created > d.created
    ensures IsBest(imgs, n + 1, FoundOf(imgs[n]), k)
  {
    var i: nat :| Wins(imgs, n, i, k) && d == FoundOf(imgs[i]);
    assert Wins(imgs, n + 1, n, k);
  }

  lemma BestFirst(imgs: seq<Image>, n: nat, k: Key)
    requires n < |imgs| && IsOf(imgs, n, k) && !SeenBefore(imgs, n, k)
    ensures IsBest(imgs, n + 1, FoundOf(imgs[n]), k)
  {
    assert Wins(imgs, n + 1, n, k);
  }

  lemma SkipStep(imgs: seq<Image>, n: nat, result: seq<Found>)
    requires n < |imgs| && Grouped(imgs, n, result) && !Usable(imgs[n])
    ensures Grouped(imgs, n + 1, result)
  {
    hide IsBest;
    forall x | 0 <= x < |result|
      ensures IsBest(imgs, n + 1, result[x], Keys(imgs, n)[x])
    {
      BestOther(imgs, n, result[x], Keys(imgs, n)[x]);
    }
  }

  lemma KeepStep(imgs: seq<Image>, n: nat, result: seq<Found>, idx: nat)
    requires n < |imgs| && Grouped(imgs, n, result) && Usable(imgs[n]) && idx < |result|
    requires Keys(imgs, n)[idx] == KeyOf(imgs[n]) && imgs[n].created <= result[idx].created
    ensures Grouped(imgs, n + 1, result)
  {
    hide IsBest;
    KeysDistinct(imgs, n);
    assert Keys(imgs, n)[idx] in Keys(imgs, n);
    forall x | 0 <= x < |result|
      ensures IsBest(imgs, n + 1, result[x], Keys(imgs, n)[x])
    {
      if x == idx {
        BestKeep(imgs, n, result[x], Keys(imgs, n)[x]);
      } else {
        BestOther(imgs, n, result[x], Keys(imgs, n)[x]);
      }
    }
  }

  lemma ReplaceStep(imgs: seq<Image>, n: nat, result: seq<Found>, idx: nat)
    requires n < |imgs| && Grouped(imgs, n, result) && Usable(imgs[n]) && idx < |result|
    requires Keys(imgs, n)[idx] == KeyOf(imgs[n]) && imgs[n].created > result[idx].created
    ensures Grouped(imgs, n + 1, result[idx := FoundOf(imgs[n])])
  {
    hide IsBest, FoundOf;
    KeysDistinct(imgs, n);
    assert Keys(imgs, n)[idx] in Keys(imgs, n);
    var after := result[idx := FoundOf(imgs[n])];
    forall x | 0 <= x < |after|
      ensures IsBest(imgs, n + 1, after[x], Keys(imgs, n)[x])
    {
      if x == idx {
        BestLater(imgs, n, result[x], Keys(imgs, n)[x]);
      } else {
        BestOther(imgs, n, result[x], Keys(imgs, n)[x]);
      }
    }
  }

  lemma NewStep(imgs: seq<Image>, n: nat, result: seq<Found>)
    requires n < |imgs| && Grouped(imgs, n, result) && Usable(imgs[n]) && !SeenBefore(imgs, n, KeyOf(imgs[n]))
    ensures Grouped(imgs, n + 1, result + [FoundOf(imgs[n])])
    ensures Keys(imgs, n + 1) == Keys(imgs, n) + [KeyOf(imgs[n])]
  {
    hide IsBest, FoundOf;
    KeysDistinct(imgs, n);
    var before, keys, after := Keys(imgs, n), Keys(imgs, n + 1), result + [FoundOf(imgs[n])];
    assert keys == before + [KeyOf(imgs[n])];
    forall x | 0 <= x < |after|
      ensures IsBest(imgs, n + 1, after[x], keys[x])
    {
      if x < |result| {
        assert keys[x] == before[x] && before[x] in before;
        BestOther(imgs, n, result[x], keys[x]);
      } else {
        BestFirst(imgs, n, keys[x]);
      }
    }
  }

  // There is only one grouped list.
  lemma GroupedUnique(imgs: seq<Image>, a: seq<Found>, b: seq<Found>)
    requires Grouped(imgs, |imgs|, a) && Grouped(imgs, |imgs|, b)
    ensures a == b
  {
    forall x | 0 <= x < |a|
      ensures a[x] == b[x]
    {
      BestUnique(imgs, a[x], b[x], Keys(imgs, |imgs|)[x]);
    }
  }

  lemma BestUnique(imgs: seq<Image>, d: Found, e: Found, k: Key)
    requires IsBest(imgs, |imgs|, d, k) && IsBest(imgs, |imgs|, e, k)
    ensures d == e
  {
    var i: nat :| Wins(imgs, |imgs|, i, k) && d == FoundOf(imgs[i]);
    var j: nat :| Wins(imgs, |imgs|, j, k) && e == FoundOf(imgs[j]);
    assert imgs[i].created == imgs[j].created;
  }

  // A grouped list has one entry per key, found under its key.
  lemma GroupedKeys(imgs: seq<Image>, result: seq<Found>)
    requires Grouped(imgs, |imgs|, result)
    ensures forall x :: 0 <= x < |result| ==> Key(result[x].name, result[x].version) == Keys(imgs, |imgs|)[x]
    ensures OnePerKey(result)
  {
    KeysDistinct(imgs, |imgs|);
    forall x | 0 <= x < |result|
      ensures Key(result[x].name, result[x].version) == Keys(imgs, |imgs|)[x]
    {
      assert IsBest(imgs, |imgs|, result[x], Keys(imgs, |imgs|)[x]);
    }
  }

  // What an entry says of the image it stands for
  predicate Describes(d: Found, img: Image) {
    && img.labels.Some? && d.digest == img.digest && d.digest != ""
    && d.name == img.labels.value.name && d.version == img.labels.value.version
    && d.isDefault == img.labels.value.isDefault && d.created == img.created
    && d.ref == if |img.repoTags| > 0 then img.repoTags[0] else img.digest
  }

  // Every entry describes one of the images; and every image with a digest and
  // labels has an entry under its name and version that is not older, nor of
  // the same age and listed later.
  lemma GroupedDescribes(imgs: seq<Image>, result: seq<Found>)
    requires Grouped(imgs, |imgs|, result)
    ensures forall x :: 0 <= x < |result| ==> exists i :: 0 <= i < |imgs| && Describes(result[x], imgs[i])
    ensures forall j :: 0 <= j < |imgs| && imgs[j].digest != "" && imgs[j].labels.Some? ==>
              exists x, i :: 0 <= x < |result| && 0 <= i < |imgs| && Describes(result[x], imgs[i])
                && result[x].name == imgs[j].labels.value.name && result[x].version == imgs[j].labels.value.version
                && (imgs[i].created > imgs[j].created || (imgs[i].created == imgs[j].created && i <= j))
  {
    hide IsBest;
    var keys := Keys(imgs, |imgs|);
    forall x | 0 <= x < |result|
      ensures exists i :: 0 <= i < |imgs| && Describes(result[x], imgs[i])
    {
      assert IsBest(imgs, |imgs|, result[x], keys[x]);
      var i := BestImage(imgs, result[x], keys[x]);
    }
    forall j | 0 <= j < |imgs| && imgs[j].digest != "" && imgs[j].labels.Some?
      ensures exists x, i :: 0 <= x < |result| && 0 <= i < |imgs| && Describes(result[x], imgs[i])
                && result[x].name == imgs[j].labels.value.name && result[x].version == imgs[j].labels.value.version
                && (imgs[i].created > imgs[j].created || (imgs[i].created == imgs[j].created && i <= j))
    {
      var k := KeyOf(imgs[j]);
      KeysDistinct(imgs, |imgs|);
      assert IsOf(imgs, j, k);
      assert k in keys;
      var x :| 0 <= x < |keys| && keys[x] == k;
      assert IsBest(imgs, |imgs|, result[x], keys[x]);
      var i := BestImage(imgs, result[x], k);
      assert Wins(imgs, |imgs|, i, k);
      assert result[x].name == k.name;
    }
  }

  lemma BestImage(imgs: seq<Image>, d: Found, k: Key) returns (i: nat)
    requires IsBest(imgs, |imgs|, d, k)
    ensures i < |imgs| && Wins(imgs, |imgs|, i, k) && Describes(d, imgs[i]) && Key(d.name, d.version) == k
  {
    i :| Wins(imgs, |imgs|, i, k) && d == FoundOf(imgs[i]);
  }

  predicate OnePerKey(fs: seq<Found>) {
    forall x, y :: 0 <= x < y < |fs| ==> Key(fs[x].name, fs[x].version) != Key(fs[y].name, fs[y].version)
  }

  // ------------------------------------------------------------ the catalog

  datatype Versions = Versions(default: string, versions: map<string, Found>)

  predicate Adopted(fs: seq<Found>, i: nat, adopted: set<string>, name: string)
    requires i < |fs|
  {
    fs[i].digest in adopted && fs[i].name == name
  }

  // The version of the last adopted image among the first n marked as the
  // browser's default.
  function Marked(fs: seq<Found>, n: nat, adopted: set<string>, name: string): string
    requires n <= |fs|
  {
    if n == 0 then ""
    else if Adopted(fs, n - 1, adopted, name) && fs[n - 1].isDefault then fs[n - 1].version
    else Marked(fs, n - 1, adopted, name)
  }

  function VersionsOf(fs: seq<Found>, n: nat, adopted: set<string>, name: string): map<string, Found>
    requires n <= |fs|
  {
    if n == 0 then map[]
    else if Adopted(fs, n - 1, adopted, name) then VersionsOf(fs, n - 1, adopted, name)[fs[n - 1].version := fs[n - 1]]
    else VersionsOf(fs, n - 1, adopted, name)
  }

  predicate HasAdopted(fs: seq<Found>, n: nat, adopted: set<string>, name: string)
    requires n <= |fs|
  {
    exists i :: 0 <= i < n && Adopted(fs, i, adopted, name)
  }

  // Entry for a browser after the first loop
  function Listed(fs: seq<Found>, n: nat, adopted: set<string>, name: string): Versions
    requires n <= |fs|
  {
    Versions(Marked(fs, n, adopted, name), VersionsOf(fs, n, adopted, name))
  }

  function WithDefault(v: Versions, order: seq<string>): Versions {
    if v.default != "" then v else v.(default := Catalog.Highest(order))
  }

  // nameOrder and versionOrder are the orders in which the maps were visited.
  method BuildBrowsersFromAdopted(fs: seq<Found>, adopted: set<string>, nameOrder: seq<string>,
                                  versionOrder: string -> seq<string>) returns (browsers: map<string, Versions>)
    requires Enumerates(nameOrder, set i | 0 <= i < |fs| && fs[i].digest in adopted :: fs[i].name)
    ensures forall name :: name in browsers <==> HasAdopted(fs, |fs|, adopted, name)
    ensures forall name :: name in browsers ==>
              browsers[name] == WithDefault(Listed(fs, |fs|, adopted, name), versionOrder(name))
  {
    hide Catalog.Highest;
    browsers := map[];
    for n := 0 to |fs|
      invariant forall name :: name in browsers <==> HasAdopted(fs, n, adopted, name)
      invariant forall name :: name in browsers ==> browsers[name] == Listed(fs, n, adopted, name)
    {
      var di := fs[n];
      AdoptedStep(fs, n, adopted);
      if di.digest !in adopted {
        continue;
      }
      NothingListed(fs, n, adopted, di.name);
      var bv := if di.name in browsers then browsers[di.name] else Versions("", map[]);
      bv := bv.(versions := bv.versions[di.version := di]);
      if di.isDefault {
        bv := bv.(default := di.version);
      }
      browsers := browsers[di.name := bv];
    }
    ghost var listed := browsers;
    for k := 0 to |nameOrder|
      invariant browsers.Keys == listed.Keys
      invariant forall name :: name in browsers ==>
        browsers[name] == if name in nameOrder[..k] then WithDefault(listed[name], versionOrder(name)) else listed[name]
    {
      var name := nameOrder[k];
      assert nameOrder[..k + 1] == nameOrder[..k] + [name];
      assert name in nameOrder;
      NameIsListed(fs, adopted, nameOrder, name);
      var bv := browsers[name];
      if bv.default == "" {
        var highest := Catalog.HighestVersion(versionOrder(name));
        browsers := browsers[name := bv.(default := highest)];
      }
    }
    assert nameOrder[..|nameOrder|] == nameOrder;
    forall name | name in browsers
      ensures name in nameOrder
    {
      var i :| 0 <= i < |fs| && Adopted(fs, i, adopted, name);
      assert fs[i].digest in adopted && fs[i].name == name;
    }
  }

  lemma NameIsListed(fs: seq<Found>, adopted: set<string>, nameOrder: seq<string>, name: string)
    requires Enumerates(nameOrder, set i | 0 <= i < |fs| && fs[i].digest in adopted :: fs[i].name) && name in nameOrder
    ensures HasAdopted(fs, |fs|, adopted, name)
  {
    var i :| 0 <= i < |fs| && fs[i].digest in adopted && fs[i].name == name;
    assert Adopted(fs, i, adopted, name);
  }

  lemma AdoptedStep(fs: seq<Found>, n: nat, adopted: set<string>)
    requires n < |fs|
    ensures forall name :: HasAdopted(fs, n + 1, adopted, name) <==> HasAdopted(fs, n, adopted, name) || Adopted(fs, n, adopted, name)
  {
    forall name
      ensures HasAdopted(fs, n + 1, adopted, name) <==> HasAdopted(fs, n, adopted, name) || Adopted(fs, n, adopted, name)
    {
      if HasAdopted(fs, n + 1, adopted, name) {
        var i :| 0 <= i < n + 1 && Adopted(fs, i, adopted, name);
        assert i < n || Adopted(fs, n, adopted, name);
      }
    }
  }

  lemma {:induction false} NothingListed(fs: seq<Found>, n: nat, adopted: set<string>, name: string)
    requires n <= |fs|
    ensures !HasAdopted(fs, n, adopted, name) ==> Listed(fs, n, adopted, name) == Versions("", map[])
  {
    if n > 0 {
      NothingListed(fs, n - 1, adopted, name);
      AdoptedStep(fs, n - 1, adopted);
    }
  }

  predicate Supplies(fs: seq<Found>, n: nat, adopted: set<string>, name: string, v: string, d: Found)
    requires n <= |fs|
  {
    exists i :: 0 <= i < n && Adopted(fs, i, adopted, name) && d == fs[i] && fs[i].version == v
  }

  // vs maps the versions of the adopted images to those images.
  ghost predicate Exactly(fs: seq<Found>, n: nat, adopted: set<string>, name: string, vs: map<string, Found>)
    requires n <= |fs|
  {
    && (forall i :: 0 <= i < n && Adopted(fs, i, adopted, name) ==> fs[i].version in vs && vs[fs[i].version] == fs[i])
    && (forall v :: v in vs ==> Supplies(fs, n, adopted, name, v, vs[v]))
  }

  // With one image per key, a browser's versions are exactly its adopted ones.
  lemma {:induction false} VersionsExact(fs: seq<Found>, n: nat, adopted: set<string>, name: string)
    requires n <= |fs| && OnePerKey(fs)
    ensures Exactly(fs, n, adopted, name, VersionsOf(fs, n, adopted, name))
  {
    if n > 0 {
      VersionsExact(fs, n - 1, adopted, name);
      var vs, before := VersionsOf(fs, n, adopted, name), VersionsOf(fs, n - 1, adopted, name);
      forall v | v in vs
        ensures Supplies(fs, n, adopted, name, v, vs[v])
      {
        if !(Adopted(fs, n - 1, adopted, name) && v == fs[n - 1].version) {
          assert Supplies(fs, n - 1, adopted, name, v, before[v]);
        }
      }
    }
  }

  // The marked default is the version of the last image marked so, and every
  // marked version is one of the browser's.
  lemma {:induction false} MarkedExact(fs: seq<Found>, n: nat, adopted: set<string>, name: string)
    requires n <= |fs|
    ensures var m := Marked(fs, n, adopted, name);
            (m == "" && forall i :: 0 <= i < n && Adopted(fs, i, adopted, name) ==> !fs[i].isDefault)
            || exists i :: 0 <= i < n && Adopted(fs, i, adopted, name) && fs[i].isDefault && fs[i].version == m
                 && forall j :: i < j < n && Adopted(fs, j, adopted, name) ==> !fs[j].isDefault
  {
    if n > 0 {
      MarkedExact(fs, n - 1, adopted, name);
    }
  }

  // A browser's default is always one of its versions: the last marked one,
  // or, when none is marked, one no other version is above.
  lemma DefaultIsListed(fs: seq<Found>, adopted: set<string>, name: string, order: seq<string>)
    requires OnePerKey(fs) && HasAdopted(fs, |fs|, adopted, name)
    requires Enumerates(order, VersionsOf(fs, |fs|, adopted, name).Keys)
    ensures var b := WithDefault(Listed(fs, |fs|, adopted, name), order);
            && b.default in b.versions
            && (Marked(fs, |fs|, adopted, name) != "" ==> b.default == Marked(fs, |fs|, adopted, name))
            && (Marked(fs, |fs|, adopted, name) == "" && (forall v :: v in b.versions ==> Catalog.OrderlyVersion(v)) ==>
                 forall v :: v in b.versions ==> Catalog.Compare(v, b.default) <= 0)
  {
    hide Catalog.OrderlyVersion, Catalog.Compare, Catalog.Highest;
    var vs := VersionsOf(fs, |fs|, adopted, name);
    VersionsExact(fs, |fs|, adopted, name);
    MarkedExact(fs, |fs|, adopted, name);
    var i :| 0 <= i < |fs| && Adopted(fs, i, adopted, name);
    assert fs[i].version in vs.Keys && fs[i].version in order;
    Catalog.HighestIsKey(order);
    if forall v :: v in vs ==> Catalog.OrderlyVersion(v) {
      assert forall k :: 0 <= k < |order| ==> order[k] in vs.Keys;
      HighestOfAll(order);
    }
  }

  lemma HighestOfAll(order: seq<string>)
    requires order != [] && forall i :: 0 <= i < |order| ==> Catalog.OrderlyVersion(order[i])
    ensures forall v :: v in order ==> Catalog.Compare(v, Catalog.Highest(order)) <= 0
  {
    hide Catalog.OrderlyVersion, Catalog.Compare;
    var dom := set v | v in order;
    Catalog.OrderlyVersionsOrdered(dom);
    Sorting.SortPermutes(order, Catalog.ByVersion());
    Sorting.SortSortsOn(order, Catalog.ByVersion(), dom);
    Catalog.HighestIsMaximal(order, Sorting.Sort(order, Catalog.ByVersion()));
  }
}
