// config/config.go State: the status report, with every session listed under
// its browser, version and quota.
module State {
  import opened Seqs

  datatype Session = Session(browser: string, version: string, quota: string, vnc: string, container: Option<string>)

  // A listed session
  datatype Entry = Entry(id: string, container: string, vnc: bool)

  datatype Sessions = Sessions(count: int, list: seq<Entry>)

  type Quotas = map<string, Sessions>
  type Browsers = map<string, map<string, Quotas>>

  datatype Report = Report(total: int, used: int, queued: int, pending: int, browsers: Browsers)

  datatype Key = Key(browser: string, version: string, quota: string)

  function KeyOf(s: Session): Key {
    Key(s.browser, s.version, s.quota)
  }

  function EntryOf(id: string, s: Session): Entry {
    Entry(id, if s.container.Some? then s.container.value else "", s.vnc != "")
  }

  predicate Has(b: Browsers, k: Key) {
    k.browser in b && k.version in b[k.browser] && k.quota in b[k.browser][k.version]
  }

  function BucketOf(b: Browsers, k: Key): Sessions {
    if Has(b, k) then b[k.browser][k.version][k.quota] else Sessions(0, [])
  }

  predicate Configured(config: map<string, set<string>>, browser: string, version: string) {
    browser in config && version in config[browser]
  }

  // The sessions with key k among the first n visited, in that order.
  function Listed(sessions: map<string, Session>, order: seq<string>, n: nat, k: Key): seq<Entry>
    requires n <= |order| && forall i :: 0 <= i < |order| ==> order[i] in sessions
  {
    if n == 0 then []
    else
      var s := sessions[order[n - 1]];
      if KeyOf(s) == k then Listed(sessions, order, n - 1, k) + [EntryOf(order[n - 1], s)]
      else Listed(sessions, order, n - 1, k)
  }

  predicate Uses(sessions: map<string, Session>, order: seq<string>, n: nat, k: Key)
    requires n <= |order| && forall i :: 0 <= i < |order| ==> order[i] in sessions
  {
    Listed(sessions, order, n, k) != []
  }

  // Every bucket holds the sessions of its key and their number.
  ghost predicate Tallied(b: Browsers, sessions: map<string, Session>, order: seq<string>, n: nat)
    requires n <= |order| && forall i :: 0 <= i < |order| ==> order[i] in sessions
  {
    && (forall k :: BucketOf(b, k).list == Listed(sessions, order, n, k))
    && (forall k :: BucketOf(b, k).count == |BucketOf(b, k).list|)
    && (forall k :: Has(b, k) <==> Uses(sessions, order, n, k))
  }

  ghost predicate KeepsConfigured(b: Browsers, config: map<string, set<string>>) {
    && (forall browser :: browser in config ==> browser in b)
    && (forall browser, version :: Configured(config, browser, version) ==> version in b[browser])
  }

  // What the loop does for one session.
  function Add(b: Browsers, id: string, s: Session): Browsers {
    var versions := if s.browser in b then b[s.browser] else map[];
    var quotas := if s.version in versions then versions[s.version] else map[];
    var bucket := if s.quota in quotas then quotas[s.quota] else Sessions(0, []);
    var grown := Sessions(bucket.count + 1, bucket.list + [EntryOf(id, s)]);
    b[s.browser := versions[s.version := quotas[s.quota := grown]]]
  }

  lemma AddOne(b: Browsers, id: string, s: Session, k: Key)
    ensures BucketOf(Add(b, id, s), k) ==
            if k == KeyOf(s) then Sessions(BucketOf(b, k).count + 1, BucketOf(b, k).list + [EntryOf(id, s)]) else BucketOf(b, k)
    ensures Has(Add(b, id, s), k) <==> Has(b, k) || k == KeyOf(s)
  {
  }

  lemma AddTallies(b: Browsers, sessions: map<string, Session>, order: seq<string>, n: nat)
    requires n < |order| && (forall i :: 0 <= i < |order| ==> order[i] in sessions) && Tallied(b, sessions, order, n)
    ensures Tallied(Add(b, order[n], sessions[order[n]]), sessions, order, n + 1)
  {
    hide Add, Has;
    var s := sessions[order[n]];
    var b' := Add(b, order[n], s);
    forall k
      ensures BucketOf(b', k).list == Listed(sessions, order, n + 1, k)
      ensures BucketOf(b', k).count == |BucketOf(b', k).list|
      ensures Has(b', k) <==> Uses(sessions, order, n + 1, k)
    {
      AddOne(b, order[n], s, k);
      assert BucketOf(b, k).list == Listed(sessions, order, n, k);
      assert Has(b, k) <==> Uses(sessions, order, n, k);
    }
  }

  // The closure State runs on every session
  method RecordSession(before: Browsers, id: string, s: Session) returns (b: Browsers)
    ensures b == Add(before, id, s)
  {
    b := before;
    if s.browser !in b {
      b := b[s.browser := map[]];
    }
    if s.version !in b[s.browser] {
      b := b[s.browser := b[s.browser][s.version := map[]]];
    }
    var quotas := b[s.browser][s.version];
    var v := if s.quota in quotas then quotas[s.quota] else Sessions(0, []);
    v := v.(count := v.count + 1);
    v := v.(list := v.list + [Entry(id, if s.container.Some? then s.container.value else "", s.vnc != "")]);
    ghost var versions := if s.browser in before then before[s.browser] else map[];
    assert b[s.browser][s.version := quotas[s.quota := v]] == versions[s.version := quotas[s.quota := v]];
    b := b[s.browser := b[s.browser][s.version := quotas[s.quota := v]]];
  }

  // The orders are those in which the maps are visited.
  method MakeState(config: map<string, set<string>>, configOrder: seq<string>, sessions: map<string, Session>,
                   order: seq<string>, limit: int, queued: int, pending: int) returns (r: Report)
    requires Enumerates(configOrder, config.Keys) && Enumerates(order, sessions.Keys)
    ensures r.total == limit && r.queued == queued && r.pending == pending && r.used == |order|
    ensures Tallied(r.browsers, sessions, order, |order|)
    ensures KeepsConfigured(r.browsers, config)
  {
    hide Has, BucketOf, Listed, Uses;
    var browsers: Browsers := map[];
    for i := 0 to |configOrder|
      invariant forall b :: b in browsers <==> b in configOrder[..i]
      invariant forall b :: b in browsers ==> b in config && browsers[b] == EmptyQuotas(config[b])
    {
      var name := configOrder[i];
      assert configOrder[..i + 1] == configOrder[..i] + [name];
      assert name in config.Keys;
      browsers := browsers[name := EmptyQuotas(config[name])];
    }
    assert configOrder[..|configOrder|] == configOrder;
    assert forall i :: 0 <= i < |order| ==> order[i] in sessions.Keys;
    StartTallied(browsers, sessions, order);
    var used := 0;
    for n := 0 to |order|
      invariant used == n && Tallied(browsers, sessions, order, n) && KeepsConfigured(browsers, config)
    {
      hide Tallied;
      AddTallies(browsers, sessions, order, n);
      used := used + 1;
      browsers := RecordSession(browsers, order[n], sessions[order[n]]);
    }
    r := Report(limit, used, queued, pending, browsers);
  }

  function EmptyQuotas(versions: set<string>): map<string, Quotas> {
    map v | v in versions :: map[]
  }

  lemma StartTallied(b: Browsers, sessions: map<string, Session>, order: seq<string>)
    requires forall i :: 0 <= i < |order| ==> order[i] in sessions
    requires forall n, v :: n in b && v in b[n] ==> b[n][v] == map[]
    ensures Tallied(b, sessions, order, 0)
  {
  }

  // -------------------------------------------------------------- conservation

  // The counts of some buckets, added up.
  function Sum(b: Browsers, keys: seq<Key>): int {
    if keys == [] then 0 else Sum(b, keys[..|keys| - 1]) + BucketOf(b, keys[|keys| - 1]).count
  }

  function SumListed(sessions: map<string, Session>, order: seq<string>, n: nat, keys: seq<Key>): int
    requires n <= |order| && forall i :: 0 <= i < |order| ==> order[i] in sessions
  {
    if keys == [] then 0
    else SumListed(sessions, order, n, keys[..|keys| - 1]) + |Listed(sessions, order, n, keys[|keys| - 1])|
  }

  lemma {:induction false} SumZero(sessions: map<string, Session>, order: seq<string>, keys: seq<Key>)
    requires forall i :: 0 <= i < |order| ==> order[i] in sessions
    ensures SumListed(sessions, order, 0, keys) == 0
  {
    if keys != [] {
      SumZero(sessions, order, keys[..|keys| - 1]);
    }
  }

  // One more session adds one to the sum, if its key is among the keys.
  lemma {:induction false} SumStep(sessions: map<string, Session>, order: seq<string>, n: nat, keys: seq<Key>)
    requires n < |order| && (forall i :: 0 <= i < |order| ==> order[i] in sessions) && NoDuplicates(keys)
    ensures SumListed(sessions, order, n + 1, keys) == SumListed(sessions, order, n, keys)
              + (if KeyOf(sessions[order[n]]) in keys then 1 else 0)
    decreases |keys|
  {
    if keys != [] {
      var front := keys[..|keys| - 1];
      SumStep(sessions, order, n, front);
      assert keys == front + [keys[|keys| - 1]];
      assert keys[|keys| - 1] !in front;
    }
  }

  lemma {:induction false} SumAll(sessions: map<string, Session>, order: seq<string>, n: nat, keys: seq<Key>)
    requires n <= |order| && (forall i :: 0 <= i < |order| ==> order[i] in sessions) && NoDuplicates(keys)
    requires forall i :: 0 <= i < n ==> KeyOf(sessions[order[i]]) in keys
    ensures SumListed(sessions, order, n, keys) == n
  {
    if n == 0 {
      SumZero(sessions, order, keys);
    } else {
      SumAll(sessions, order, n - 1, keys);
      SumStep(sessions, order, n - 1, keys);
    }
  }

  lemma {:induction false} SumAgrees(b: Browsers, sessions: map<string, Session>, order: seq<string>, keys: seq<Key>)
    requires (forall i :: 0 <= i < |order| ==> order[i] in sessions) && Tallied(b, sessions, order, |order|)
    ensures Sum(b, keys) == SumListed(sessions, order, |order|, keys)
    decreases |keys|
  {
    hide BucketOf, Listed;
    if keys != [] {
      SumAgrees(b, sessions, order, keys[..|keys| - 1]);
      assert BucketOf(b, keys[|keys| - 1]).list == Listed(sessions, order, |order|, keys[|keys| - 1]);
    }
  }

  lemma {:induction false} ListedUses(sessions: map<string, Session>, order: seq<string>, n: nat, i: nat)
    requires i < n <= |order| && forall i :: 0 <= i < |order| ==> order[i] in sessions
    ensures EntryOf(order[i], sessions[order[i]]) in Listed(sessions, order, n, KeyOf(sessions[order[i]]))
  {
    if i < n - 1 {
      ListedUses(sessions, order, n - 1, i);
    }
  }

  lemma {:induction false} ListedExact(sessions: map<string, Session>, order: seq<string>, n: nat, k: Key, e: Entry)
    requires n <= |order| && forall i :: 0 <= i < |order| ==> order[i] in sessions
    ensures e in Listed(sessions, order, n, k) <==>
            exists i :: 0 <= i < n && KeyOf(sessions[order[i]]) == k && e == EntryOf(order[i], sessions[order[i]])
  {
    if n > 0 {
      ListedExact(sessions, order, n - 1, k, e);
    }
  }

  lemma {:induction false} ListedOnce(sessions: map<string, Session>, order: seq<string>, n: nat, k: Key)
    requires n <= |order| && (forall i :: 0 <= i < |order| ==> order[i] in sessions) && NoDuplicates(order)
    ensures NoDuplicates(Listed(sessions, order, n, k))
  {
    if n > 0 {
      ListedOnce(sessions, order, n - 1, k);
      var e := EntryOf(order[n - 1], sessions[order[n - 1]]);
      ListedExact(sessions, order, n - 1, k, e);
    }
  }

  // The buckets' counts, each bucket taken once, add up to the number in use,
  // which is the number of sessions.
  lemma CountsAddUp(b: Browsers, sessions: map<string, Session>, order: seq<string>, keys: seq<Key>)
    requires Enumerates(order, sessions.Keys)
    requires (forall i :: 0 <= i < |order| ==> order[i] in sessions) && Tallied(b, sessions, order, |order|)
    requires NoDuplicates(keys) && forall k :: k in keys <==> Has(b, k)
    ensures Sum(b, keys) == |order| == |sessions|
  {
    hide Has, BucketOf, Listed;
    forall i | 0 <= i < |order|
      ensures KeyOf(sessions[order[i]]) in keys
    {
      ListedUses(sessions, order, |order|, i);
      assert Uses(sessions, order, |order|, KeyOf(sessions[order[i]]));
    }
    SumAll(sessions, order, |order|, keys);
    SumAgrees(b, sessions, order, keys);
    SizeOfKeys(order, sessions.Keys);
    assert |sessions| == |sessions.Keys|;
  }

  lemma {:induction false} SizeOfKeys(order: seq<string>, keys: set<string>)
    requires Enumerates(order, keys)
    ensures |order| == |keys|
  {
    if order == [] {
      assert keys == {};
    } else {
      var n := |order| - 1;
      assert order == order[..n] + [order[n]];
      SizeOfKeys(order[..n], keys - {order[n]});
    }
  }

  // A session is listed under its own browser, version and quota, once, with
  // its container and whether it has VNC, and under no other.
  lemma ListedUnderOneKey(b: Browsers, sessions: map<string, Session>, order: seq<string>, id: string, k: Key)
    requires Enumerates(order, sessions.Keys) && id in sessions
    requires (forall i :: 0 <= i < |order| ==> order[i] in sessions) && Tallied(b, sessions, order, |order|)
    ensures Count(BucketOf(b, k).list, Names(id)) ==
              if k == Key(sessions[id].browser, sessions[id].version, sessions[id].quota) then 1 else 0
    ensures forall e :: e in BucketOf(b, k).list && e.id == id ==>
              && (e.vnc <==> sessions[id].vnc != "")
              && e.container == (match sessions[id].container case None => "" case Some(c) => c)
    ensures Has(b, k) ==> BucketOf(b, k) == b[k.browser][k.version][k.quota]
  {
    BucketIs(b, sessions, id, k);
    hide Has, BucketOf, Listed, KeyOf;
    var list := Listed(sessions, order, |order|, k);
    assert BucketOf(b, k).list == list;
    ListedOnce(sessions, order, |order|, k);
    forall x | 0 <= x < |list|
      ensures list[x].id == id ==> KeyOf(sessions[id]) == k && list[x] == EntryOf(id, sessions[id])
    {
      assert list[x] in list;
      ListedExact(sessions, order, |order|, k, list[x]);
    }
    if k == KeyOf(sessions[id]) {
      assert id in order;
      var i :| 0 <= i < |order| && order[i] == id;
      ListedUses(sessions, order, |order|, i);
      var x :| 0 <= x < |list| && list[x] == EntryOf(id, sessions[id]);
      CountSome(list, Names(id), x);
      CountAtMostOne(list, Names(id));
    } else {
      CountNone(list, Names(id));
    }
  }

  lemma BucketIs(b: Browsers, sessions: map<string, Session>, id: string, k: Key)
    requires id in sessions
    ensures Has(b, k) ==> BucketOf(b, k) == b[k.browser][k.version][k.quota]
    ensures KeyOf(sessions[id]) == Key(sessions[id].browser, sessions[id].version, sessions[id].quota)
  {
  }

  function Names(id: string): Entry -> bool {
    (e: Entry) => e.id == id
  }
}
