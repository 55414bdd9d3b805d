// protect/token.go: API tokens in a slice that is edited in place, with an
// index from hash prefix to slice positions.  Lookups go through the index.
//
// Hashing is a pair of functions the store is built with; random values, the
// clock and whether a file operation succeeds are parameters.
module TokenStore {
  import opened Seqs
  import Text

  const PLAINTEXT_PREFIX := "swr_live_"

  datatype Token = Token(id: string, hashPrefix: string, hash: string, owner: string, groups: seq<string>,
                         name: string, createdAt: int, lastUsedAt: Option<int>, expiresAt: Option<int>)

  // prefixOf is the truncated SHA-256, matches the bcrypt comparison.
  datatype Crypto = Crypto(prefixOf: string -> string, matches: (string, string) -> bool)

  datatype Answer = Denied | Granted(owner: string, groups: seq<string>, id: string)

  datatype Error = OwnerRequired | NameRequired | TokenInvalid | TokenNotFound | CryptoFailed | PersistFailed | LoadFailed

  datatype Result<+T> = Ok(value: T) | Err(error: Error)

  // What reading the store's file gave.
  datatype FileRead = Missing | Unreadable | Empty | BadJson | Parsed(tokens: seq<Token>)

  // Reading back a file the store wrote.
  function Reads(file: Option<seq<Token>>): FileRead {
    if file.Some? then Parsed(file.value) else Missing
  }

  // ------------------------------------------------------------- the index

  // The positions of the tokens with hash prefix p, in ascending order.
  function IndicesOf(ts: seq<Token>, p: string): (r: seq<nat>)
    ensures forall k :: 0 <= k < |r| ==> r[k] < |ts|
  {
    if ts == [] then []
    else
      var n := |ts| - 1;
      var before := IndicesOf(ts[..n], p);
      if ts[n].hashPrefix == p then before + [n] else before
  }

  // Reading a missing key gives the empty list.
  function Bucket(index: map<string, seq<nat>>, p: string): seq<nat> {
    if p in index then index[p] else []
  }

  ghost predicate Indexes(index: map<string, seq<nat>>, ts: seq<Token>) {
    forall p :: Bucket(index, p) == IndicesOf(ts, p)
  }

  lemma {:induction false} IndicesExact(ts: seq<Token>, p: string)
    ensures forall k, l :: 0 <= k < l < |IndicesOf(ts, p)| ==> IndicesOf(ts, p)[k] < IndicesOf(ts, p)[l]
    ensures forall i: nat :: i in IndicesOf(ts, p) <==> i < |ts| && ts[i].hashPrefix == p
  {
    if ts != [] {
      IndicesExact(ts[..|ts| - 1], p);
    }
  }

  lemma IndicesSnoc(ts: seq<Token>, n: nat, p: string)
    requires n < |ts|
    ensures IndicesOf(ts[..n + 1], p) == IndicesOf(ts[..n], p) + (if ts[n].hashPrefix == p then [n] else [])
  {
    assert ts[..n + 1][..n] == ts[..n];
  }

  lemma IndexStep(index: map<string, seq<nat>>, ts: seq<Token>, n: nat)
    requires n < |ts| && Indexes(index, ts[..n])
    ensures Indexes(index[ts[n].hashPrefix := Bucket(index, ts[n].hashPrefix) + [n]], ts[..n + 1])
  {
    var after := index[ts[n].hashPrefix := Bucket(index, ts[n].hashPrefix) + [n]];
    forall p
      ensures Bucket(after, p) == IndicesOf(ts[..n + 1], p)
    {
      IndicesSnoc(ts, n, p);
      assert Bucket(index, p) == IndicesOf(ts[..n], p);
    }
  }

  // ------------------------------------------------------ what a lookup means

  function Filter(xs: seq<Token>, keep: Token -> bool): (r: seq<Token>)
    ensures |r| <= |xs|
  {
    if xs == [] then []
    else
      var n := |xs| - 1;
      if keep(xs[n]) then Filter(xs[..n], keep) + [xs[n]] else Filter(xs[..n], keep)
  }

  lemma {:induction false} FilterWhole(xs: seq<Token>, keep: Token -> bool)
    requires |Filter(xs, keep)| == |xs|
    ensures Filter(xs, keep) == xs
  {
    if xs != [] {
      FilterWhole(xs[..|xs| - 1], keep);
    }
  }

  lemma FilterSnoc(xs: seq<Token>, x: Token, keep: Token -> bool)
    ensures Filter(xs + [x], keep) == Filter(xs, keep) + (if keep(x) then [x] else [])
  {
    assert (xs + [x])[..|xs|] == xs;
  }

  lemma Associate(a: seq<Token>, b: seq<Token>, c: seq<Token>)
    ensures a + b + c == a + (b + c)
  {
  }

  // It keeps every token that passes, in order, and no other: it takes a single
  // token or leaves it (FilterSnoc), and goes part by part.
  lemma {:induction false} FilterConcat(xs: seq<Token>, ys: seq<Token>, keep: Token -> bool)
    ensures Filter(xs + ys, keep) == Filter(xs, keep) + Filter(ys, keep)
  {
    if ys == [] {
      assert xs + ys == xs;
    } else {
      hide Filter;
      var front, last := ys[..|ys| - 1], ys[|ys| - 1];
      FilterConcat(xs, front, keep);
      FilterSnoc(xs + front, last, keep);
      FilterSnoc(front, last, keep);
      Associate(xs, front, [last]);
      assert ys == front + [last];
      Associate(Filter(xs, keep), Filter(front, keep), if keep(last) then [last] else []);
    }
  }

  lemma {:induction false} FilterMembers(xs: seq<Token>, keep: Token -> bool)
    ensures forall t :: t in Filter(xs, keep) <==> t in xs && keep(t)
  {
    if xs != [] {
      FilterMembers(xs[..|xs| - 1], keep);
      assert xs == xs[..|xs| - 1] + [xs[|xs| - 1]];
    }
  }

  // The same filter, reading the sequence by position as a loop does.
  function FilterTo(xs: seq<Token>, n: nat, keep: Token -> bool): seq<Token>
    requires n <= |xs|
  {
    if n == 0 then []
    else if keep(xs[n - 1]) then FilterTo(xs, n - 1, keep) + [xs[n - 1]]
    else FilterTo(xs, n - 1, keep)
  }

  lemma {:induction false} FilterToPrefix(xs: seq<Token>, n: nat, keep: Token -> bool)
    requires n <= |xs|
    ensures FilterTo(xs, n, keep) == Filter(xs[..n], keep)
  {
    if n > 0 {
      FilterToPrefix(xs, n - 1, keep);
      assert xs[..n][..n - 1] == xs[..n - 1];
    }
  }

  predicate Matches(c: Crypto, t: Token, plaintext: string) {
    t.hashPrefix == c.prefixOf(plaintext) && c.matches(t.hash, plaintext)
  }

  // The first token, in slice order, that the plaintext matches.
  function FirstMatch(c: Crypto, ts: seq<Token>, plaintext: string): (m: Option<Token>)
    ensures m.Some? ==> Matches(c, m.value, plaintext)
  {
    if ts == [] then None
    else
      var n := |ts| - 1;
      var before := FirstMatch(c, ts[..n], plaintext);
      if before.Some? then before
      else if Matches(c, ts[n], plaintext) then Some(ts[n])
      else None
  }

  lemma {:induction false} FirstMatchNone(c: Crypto, ts: seq<Token>, plaintext: string)
    ensures FirstMatch(c, ts, plaintext).None? <==> forall i :: 0 <= i < |ts| ==> !Matches(c, ts[i], plaintext)
  {
    if ts != [] {
      var n := |ts| - 1;
      FirstMatchNone(c, ts[..n], plaintext);
      assert forall i :: 0 <= i < n ==> ts[..n][i] == ts[i];
    }
  }

  // A matching token with no match before it is the first match.
  lemma FirstInPrefix(c: Crypto, ts: seq<Token>, i: nat, plaintext: string)
    requires i < |ts| && FirstMatch(c, ts[..i], plaintext).None? && Matches(c, ts[i], plaintext)
    ensures FirstMatch(c, ts, plaintext) == Some(ts[i])
    decreases |ts|
  {
    var n := |ts| - 1;
    if i < n {
      assert ts[..n][..i] == ts[..i];
      FirstInPrefix(c, ts[..n], i, plaintext);
    }
  }

  predicate Expired(t: Token, now: int) {
    t.expiresAt.Some? && now > t.expiresAt.value
  }

  predicate Accepts(m: Option<Token>, now: int) {
    m.Some? && !Expired(m.value, now)
  }

  function Verdict(m: Option<Token>, now: int): Answer {
    if m.None? || Expired(m.value, now) then Denied
    else Granted(m.value.owner, m.value.groups, m.value.id)
  }

  // A linear scan that stops on the first matching token, expired or not.
  function Scan(c: Crypto, ts: seq<Token>, plaintext: string, now: int): Answer {
    if !(PLAINTEXT_PREFIX <= plaintext) then Denied else Verdict(FirstMatch(c, ts, plaintext), now)
  }

  predicate MatchedBefore(c: Crypto, ts: seq<Token>, n: nat, plaintext: string)
    requires n <= |ts|
  {
    exists i :: 0 <= i < n && ts[i].hashPrefix == c.prefixOf(plaintext) && c.matches(ts[i].hash, plaintext)
  }

  // The answer is the owner, groups and id of the first token that matches,
  // unless it has expired; without a match, or without the prefix, a refusal.
  predicate Answers(c: Crypto, ts: seq<Token>, plaintext: string, now: int, a: Answer) {
    && (!(PLAINTEXT_PREFIX <= plaintext) || !MatchedBefore(c, ts, |ts|, plaintext) ==> a == Denied)
    && (PLAINTEXT_PREFIX <= plaintext ==>
          forall i :: 0 <= i < |ts| && !MatchedBefore(c, ts, i, plaintext)
                      && ts[i].hashPrefix == c.prefixOf(plaintext) && c.matches(ts[i].hash, plaintext) ==>
            if ts[i].expiresAt.Some? && ts[i].expiresAt.value < now then a == Denied
            else a == Granted(ts[i].owner, ts[i].groups, ts[i].id))
  }

  lemma ScanAnswers(c: Crypto, ts: seq<Token>, plaintext: string, now: int)
    ensures Answers(c, ts, plaintext, now, Scan(c, ts, plaintext, now))
  {
    FirstMatchNone(c, ts, plaintext);
    if PLAINTEXT_PREFIX <= plaintext {
      forall i | 0 <= i < |ts| && !MatchedBefore(c, ts, i, plaintext) && Matches(c, ts[i], plaintext)
        ensures FirstMatch(c, ts, plaintext) == Some(ts[i])
      {
        FirstMatchNone(c, ts[..i], plaintext);
        FirstInPrefix(c, ts, i, plaintext);
      }
    }
  }

  // Dropping tokens does not change the first match as long as it stays.
  lemma {:induction false} FilterKeepsFirst(c: Crypto, ts: seq<Token>, keep: Token -> bool, plaintext: string)
    requires FirstMatch(c, ts, plaintext).Some? ==> keep(FirstMatch(c, ts, plaintext).value)
    ensures FirstMatch(c, Filter(ts, keep), plaintext) == FirstMatch(c, ts, plaintext)
  {
    if ts != [] {
      var n := |ts| - 1;
      FilterKeepsFirst(c, ts[..n], keep, plaintext);
      AppendKeepsFirst(c, Filter(ts[..n], keep), ts[n], plaintext);
    }
  }

  lemma AppendKeepsFirst(c: Crypto, ts: seq<Token>, t: Token, plaintext: string)
    ensures FirstMatch(c, ts + [t], plaintext)
         == if FirstMatch(c, ts, plaintext).Some? then FirstMatch(c, ts, plaintext)
            else if Matches(c, t, plaintext) then Some(t) else None
  {
    assert (ts + [t])[..|ts|] == ts;
  }

  function HasPrefix(p: string): Token -> bool {
    (t: Token) => t.hashPrefix == p
  }

  // The tokens at the positions of one bucket.
  function Pick(ts: seq<Token>, at: seq<nat>): seq<Token>
    requires forall k :: 0 <= k < |at| ==> at[k] < |ts|
  {
    seq(|at|, k requires 0 <= k < |at| => ts[at[k]])
  }

  lemma {:induction false} PickBucket(ts: seq<Token>, p: string)
    ensures Pick(ts, IndicesOf(ts, p)) == Filter(ts, HasPrefix(p))
  {
    if ts != [] {
      var n := |ts| - 1;
      PickBucket(ts[..n], p);
      var before := IndicesOf(ts[..n], p);
      assert forall k :: 0 <= k < |before| ==> ts[..n][before[k]] == ts[before[k]];
      assert Pick(ts, before) == Pick(ts[..n], before);
      assert Pick(ts, before + [n]) == Pick(ts, before) + [ts[n]];
    }
  }

  // Scanning one bucket finds what scanning the whole store finds.
  lemma BucketScan(c: Crypto, ts: seq<Token>, plaintext: string)
    ensures var picked := Pick(ts, IndicesOf(ts, c.prefixOf(plaintext)));
            && FirstMatch(c, picked, plaintext) == FirstMatch(c, ts, plaintext)
            && forall i :: 0 <= i < |picked| ==> picked[i].hashPrefix == c.prefixOf(plaintext)
  {
    var p := c.prefixOf(plaintext);
    PickBucket(ts, p);
    FilterKeepsFirst(c, ts, HasPrefix(p), plaintext);
    IndicesExact(ts, p);
    forall i | 0 <= i < |IndicesOf(ts, p)|
      ensures ts[IndicesOf(ts, p)[i]].hashPrefix == p
    {
      assert IndicesOf(ts, p)[i] in IndicesOf(ts, p);
    }
  }

  // ------------------------------------------------ the store as a state machine

  datatype State = State(tokens: seq<Token>, disk: Option<seq<Token>>, pending: map<string, int>)

  datatype Op =
    | Append(token: Token, saved: bool)        // Create, SeedFromPlaintext
    | Revoke(id: string, saved: bool)
    | RevokeByOwner(owner: string, saved: bool)
    | Touch(id: string, now: int)
    | Flush(saved: bool)
    | Restart                                  // a new store on the same file

  function NotOwnedBy(owner: string): Token -> bool {
    (t: Token) => t.owner != owner
  }

  function IndexOfId(ts: seq<Token>, id: string): (i: nat)
    ensures i <= |ts|
    ensures i < |ts| ==> ts[i].id == id
    ensures forall j :: 0 <= j < i ==> ts[j].id != id
  {
    if ts == [] then 0 else if ts[0].id == id then 0
    else
      assert forall j :: 1 <= j < |ts| ==> ts[j] == ts[1..][j - 1];
      1 + IndexOfId(ts[1..], id)
  }

  predicate IsFirst(ts: seq<Token>, i: nat, id: string)
    requires i < |ts|
  {
    ts[i].id == id && forall j :: 0 <= j < i ==> ts[j].id != id
  }

  function Without(ts: seq<Token>, i: nat): seq<Token>
    requires i < |ts|
  {
    ts[..i] + ts[i + 1..]
  }

  function Used(t: Token, pending: map<string, int>): Token {
    if t.id in pending then t.(lastUsedAt := Some(pending[t.id])) else t
  }

  function UseAll(ts: seq<Token>, pending: map<string, int>): (r: seq<Token>)
    ensures |r| == |ts| && forall i :: 0 <= i < |r| ==> r[i] == Used(ts[i], pending)
  {
    seq(|ts|, i requires 0 <= i < |ts| => Used(ts[i], pending))
  }

  predicate Touches(ts: seq<Token>, pending: map<string, int>) {
    exists i :: 0 <= i < |ts| && ts[i].id in pending
  }

  function Save(s: State, saved: bool): State {
    if saved then s.(disk := Some(s.tokens)) else s
  }

  // What a new store reads back.
  function OnDisk(s: State): seq<Token> {
    if s.disk.Some? then s.disk.value else []
  }

  function Do(s: State, op: Op): State {
    match op
    case Append(t, saved) => Save(s.(tokens := s.tokens + [t]), saved)
    case Revoke(id, saved) =>
      var i := IndexOfId(s.tokens, id);
      if i == |s.tokens| then s else Save(s.(tokens := Without(s.tokens, i)), saved)
    case RevokeByOwner(owner, saved) =>
      var kept := Filter(s.tokens, NotOwnedBy(owner));
      if |kept| == |s.tokens| then s else Save(s.(tokens := kept), saved)
    case Touch(id, now) => if id == "" then s else s.(pending := s.pending[id := now])
    case Flush(saved) =>
      var s' := s.(pending := map[]);
      if Touches(s.tokens, s.pending) then Save(s'.(tokens := UseAll(s.tokens, s.pending)), saved) else s'
    case Restart => s.(tokens := OnDisk(s), pending := map[])
  }

  function Run(s: State, ops: seq<Op>): State
    decreases |ops|
  {
    if ops == [] then s else Run(Do(s, ops[0]), ops[1..])
  }

  // ------------------------------------------------------------ the real store

  // append(s.tokens[:i], s.tokens[i+1:]...), which moves the later tokens down
  method CloseGap(a: array<Token>, i: nat, n: nat)
    requires i < n <= a.Length
    modifies a
    ensures a[..n - 1] == Without(old(a[..n]), i)
  {
    ghost var was := a[..n];
    ghost var closed := Without(was, i);
    var k := i + 1;
    while k < n
      invariant i + 1 <= k <= n
      invariant forall j :: 0 <= j < k - 1 ==> a[j] == closed[j]
      invariant forall j :: k - 1 <= j < n ==> a[j] == was[j]
    {
      a[k - 1] := a[k];
      k := k + 1;
    }
  }

  // The loop of RevokeByOwner, compacting over the slice it reads.
  method Compact(a: array<Token>, n: nat, owner: string) returns (kept: nat)
    requires n <= a.Length
    modifies a
    ensures kept <= n && a[..kept] == Filter(old(a[..n]), NotOwnedBy(owner))
  {
    ghost var was := a[..n];
    ghost var keep := NotOwnedBy(owner);
    ghost var done := [];
    kept := 0;
    for i := 0 to n
      invariant kept == |done| <= i && done == FilterTo(was, i, keep)
      invariant forall j :: 0 <= j < kept ==> a[j] == done[j]
      invariant forall j :: i <= j < n ==> a[j] == was[j]
    {
      var t := a[i];
      if t.owner != owner {
        a[kept] := t;
        kept := kept + 1;
        done := done + [t];
      }
    }
    FilterToPrefix(was, n, keep);
    assert was[..n] == was && a[..kept] == done;
  }

  // The loop of flushTouches over the tokens.
  method Stamp(a: array<Token>, n: nat, pending: map<string, int>) returns (changed: bool)
    requires n <= a.Length
    modifies a
    ensures a[..n] == UseAll(old(a[..n]), pending)
    ensures changed == Touches(old(a[..n]), pending)
  {
    ghost var was := a[..n];
    changed := false;
    var i := 0;
    while i < n
      invariant i <= n
      invariant forall j :: 0 <= j < i ==> a[j] == Used(was[j], pending)
      invariant forall j :: i <= j < n ==> a[j] == was[j]
      invariant changed <==> exists j :: 0 <= j < i && was[j].id in pending
    {
      if a[i].id in pending {
        a[i] := a[i].(lastUsedAt := Some(pending[a[i].id]));
        changed := true;
      }
      i := i + 1;
    }
  }

  // The loop of Lookup over the copied bucket.
  method Compare(c: Crypto, copy: seq<Token>, plaintext: string, now: int) returns (a: Answer)
    requires forall i :: 0 <= i < |copy| ==> copy[i].hashPrefix == c.prefixOf(plaintext)
    ensures a == Verdict(FirstMatch(c, copy, plaintext), now)
  {
    var i := 0;
    while i < |copy|
      invariant i <= |copy| && FirstMatch(c, copy[..i], plaintext).None?
    {
      if c.matches(copy[i].hash, plaintext) {
        FirstInPrefix(c, copy, i, plaintext);
        if copy[i].expiresAt.Some? && now > copy[i].expiresAt.value { return Denied; }
        return Granted(copy[i].owner, copy[i].groups, copy[i].id);
      }
      AppendKeepsFirst(c, copy[..i], copy[i], plaintext);
      assert copy[..i + 1] == copy[..i] + [copy[i]];
      i := i + 1;
    }
    assert copy[..i] == copy;
    return Denied;
  }

  predicate Named(owner: string, name: string) {
    Text.TrimSpace(owner) != "" && Text.TrimSpace(name) != ""
  }

  // The record of a new token, owner and name trimmed, never expiring.
  function NewToken(c: Crypto, owner: string, name: string, groups: seq<string>, plaintext: string,
                    hash: string, id: string, now: int): Token {
    Token(id, c.prefixOf(plaintext), hash, Text.TrimSpace(owner), groups, Text.TrimSpace(name), now, None, None)
  }

  // The fields of a new record, one by one
  predicate IsRecord(t: Token, id: string, hashPrefix: string, hash: string, owner: string, groups: seq<string>,
                     name: string, createdAt: int) {
    && t.id == id && t.hashPrefix == hashPrefix && t.hash == hash
    && t.owner == owner && t.groups == groups && t.name == name
    && t.createdAt == createdAt && t.lastUsedAt == None && t.expiresAt == None
  }

  // One token more, behind the others; the file holds them all, or what it held.
  predicate Grown(before: seq<Token>, after: seq<Token>, saves: bool, was: Option<seq<Token>>, file: Option<seq<Token>>) {
    && |after| == |before| + 1 && after[..|before|] == before
    && file == if saves then Some(after) else was
  }

  class TokenStore {
    const crypto: Crypto
    var data: array<Token>
    var len: nat
    var byPrefix: map<string, seq<nat>>
    var pendingTouch: map<string, int>
    var file: Option<seq<Token>>

    function Contents(): seq<Token>
      reads this, data
      requires len <= data.Length
    {
      data[..len]
    }

    ghost predicate Valid()
      reads this, data
    {
      len <= data.Length && Indexes(byPrefix, Contents())
    }

    function Now(): State
      reads this, data
      requires len <= data.Length
    {
      State(Contents(), file, pendingTouch)
    }

    constructor (crypto: Crypto, file: Option<seq<Token>>)
      ensures Valid() && fresh(data) && this.crypto == crypto
      ensures Now() == State([], file, map[])
    {
      this.crypto := crypto;
      data := new Token[0];
      len := 0;
      byPrefix := map[];
      pendingTouch := map[];
      this.file := file;
    }

    // rebuildIndexLocked
    method RebuildIndex()
      requires len <= data.Length
      modifies this`byPrefix
      ensures Valid()
    {
      ghost var ts := Contents();
      var index: map<string, seq<nat>> := map[];
      var i := 0;
      while i < len
        modifies {}
        invariant i <= len && Indexes(index, ts[..i])
      {
        IndexStep(index, ts, i);
        index := index[data[i].hashPrefix := Bucket(index, data[i].hashPrefix) + [i]];
        i := i + 1;
      }
      assert ts[..len] == ts;
      byPrefix := index;
    }

    // persistLocked: the file holds the new contents, or what it held before.
    method Persist(saves: bool) returns (ok: bool)
      requires len <= data.Length
      modifies this`file
      ensures ok == saves && file == if saves then Some(Contents()) else old(file)
    {
      if saves {
        file := Some(data[..len]);
      }
      ok := saves;
    }

    // append(s.tokens, rec), then the index and the file
    method AppendToken(t: Token, saves: bool) returns (ok: bool)
      requires Valid()
      modifies this, data
      ensures Valid() && (data == old(data) || fresh(data))
      ensures ok == saves && Now() == Do(old(Now()), Append(t, saves))
    {
      hide Indexes;
      if len == data.Length {
        var bigger := new Token[2 * len + 1];
        forall i | 0 <= i < len {
          bigger[i] := data[i];
        }
        data := bigger;
      }
      data[len] := t;
      len := len + 1;
      assert Contents() == old(Contents()) + [t];
      RebuildIndex();
      ok := Persist(saves);
    }

    // A failed save reports an error although the token is in memory.
    method Create(owner: string, name: string, groups: seq<string>, now: int, random: Option<string>,
                  hash: Option<string>, newId: Option<string>, saves: bool) returns (r: Result<(string, string)>)
      requires Valid()
      modifies this, data
      ensures Valid() && (data == old(data) || fresh(data))
      ensures Text.TrimSpace(owner) == "" ==> r == Err(OwnerRequired)
      ensures Text.TrimSpace(owner) != "" && Text.TrimSpace(name) == "" ==> r == Err(NameRequired)
      ensures Named(owner, name) ==>
                r == if random.None? || hash.None? || newId.None? then Err(CryptoFailed)
                     else if saves then Ok((newId.value, PLAINTEXT_PREFIX + random.value)) else Err(PersistFailed)
      ensures r.Err? && r != Err(PersistFailed) ==> Now() == old(Now())
      ensures r.Ok? || r == Err(PersistFailed) ==>
                Named(owner, name) && random.Some? && hash.Some? && newId.Some?
                && Now() == Do(old(Now()), Append(NewToken(crypto, owner, name, groups, PLAINTEXT_PREFIX + random.value,
                                                           hash.value, newId.value, now), saves))
                && Grown(old(Contents()), Contents(), saves, old(file), file)
                && IsRecord(Contents()[|old(Contents())|], newId.value, crypto.prefixOf(PLAINTEXT_PREFIX + random.value),
                            hash.value, Text.TrimSpace(owner), groups, Text.TrimSpace(name), now)
    {
      var trimmedOwner := Text.TrimSpace(owner);
      var trimmedName := Text.TrimSpace(name);
      if trimmedOwner == "" { return Err(OwnerRequired); }
      if trimmedName == "" { return Err(NameRequired); }
      if random.None? { return Err(CryptoFailed); }
      var plaintext := PLAINTEXT_PREFIX + random.value;
      if hash.None? { return Err(CryptoFailed); }
      if newId.None? { return Err(CryptoFailed); }
      var t := Token(newId.value, crypto.prefixOf(plaintext), hash.value, trimmedOwner, groups, trimmedName, now, None, None);
      var ok := AppendToken(t, saves);
      if !ok { return Err(PersistFailed); }
      return Ok((newId.value, plaintext));
    }

    // The bucket is copied first; the comparisons run on the copy.
    method Lookup(plaintext: string, now: int) returns (a: Answer)
      requires Valid()
      ensures a == Scan(crypto, Contents(), plaintext, now)
      ensures Answers(crypto, Contents(), plaintext, now, a)
    {
      hide Answers, FirstMatch, IndicesOf;
      ScanAnswers(crypto, Contents(), plaintext, now);
      if !(PLAINTEXT_PREFIX <= plaintext) { return Denied; }
      var candidates := Bucket(byPrefix, crypto.prefixOf(plaintext));
      ghost var picked := Pick(Contents(), candidates);
      BucketScan(crypto, Contents(), plaintext);
      var copy: seq<Token> := [];
      var k := 0;
      while k < |candidates|
        invariant k <= |candidates| && copy == picked[..k]
      {
        copy := copy + [data[candidates[k]]];
        k := k + 1;
      }
      assert copy == picked;
      a := Compare(crypto, copy, plaintext, now);
    }

    // A plaintext the store already accepts is left alone.
    method SeedFromPlaintext(owner: string, name: string, plaintext: string, groups: seq<string>, now: int,
                             hash: Option<string>, newId: Option<string>, saves: bool)
      returns (r: Result<(string, bool)>)
      requires Valid()
      modifies this, data
      ensures Valid() && (data == old(data) || fresh(data))
      ensures Text.TrimSpace(owner) == "" ==> r == Err(OwnerRequired)
      ensures Text.TrimSpace(owner) != "" && Text.TrimSpace(name) == "" ==> r == Err(NameRequired)
      ensures Named(owner, name) && !(PLAINTEXT_PREFIX <= plaintext) ==> r == Err(TokenInvalid)
      // A match is reported exactly when the first match is still valid.
      ensures Named(owner, name) && PLAINTEXT_PREFIX <= plaintext ==>
                r == var m := old(FirstMatch(crypto, Contents(), plaintext));
                     if Accepts(m, now) then Ok((m.value.id, true))
                     else if hash.None? || newId.None? then Err(CryptoFailed)
                     else if saves then Ok((newId.value, false)) else Err(PersistFailed)
      ensures (r.Ok? && r.value.1) || (r.Err? && r != Err(PersistFailed)) ==> Now() == old(Now())
      ensures (r.Ok? && !r.value.1) || r == Err(PersistFailed) ==>
                Named(owner, name) && hash.Some? && newId.Some?
                && Now() == Do(old(Now()), Append(NewToken(crypto, owner, name, groups, plaintext,
                                                           hash.value, newId.value, now), saves))
                && Grown(old(Contents()), Contents(), saves, old(file), file)
                && IsRecord(Contents()[|old(Contents())|], newId.value, crypto.prefixOf(plaintext), hash.value,
                            Text.TrimSpace(owner), groups, Text.TrimSpace(name), now)
    {
      var trimmedOwner := Text.TrimSpace(owner);
      var trimmedName := Text.TrimSpace(name);
      if trimmedOwner == "" { return Err(OwnerRequired); }
      if trimmedName == "" { return Err(NameRequired); }
      if !(PLAINTEXT_PREFIX <= plaintext) { return Err(TokenInvalid); }
      var existing := Lookup(plaintext, now);
      if existing.Granted? { return Ok((existing.id, true)); }
      if hash.None? { return Err(CryptoFailed); }
      if newId.None? { return Err(CryptoFailed); }
      var t := Token(newId.value, crypto.prefixOf(plaintext), hash.value, trimmedOwner, groups, trimmedName, now, None, None);
      var ok := AppendToken(t, saves);
      if !ok { return Err(PersistFailed); }
      return Ok((newId.value, false));
    }

    method TouchLastUsed(id: string, now: int)
      requires Valid()
      modifies this`pendingTouch
      ensures Valid() && Now() == Do(old(Now()), Touch(id, now))
      ensures pendingTouch == if id == "" then old(pendingTouch) else old(pendingTouch)[id := now]
    {
      if id == "" { return; }
      pendingTouch := pendingTouch[id := now];
    }

    // Removes the first token with the id by moving the later ones down.
    method Revoke(id: string, saves: bool) returns (r: Result<()>)
      requires Valid()
      modifies this, data
      ensures Valid() && data == old(data)
      ensures r == Err(TokenNotFound) <==> forall t :: t in old(Contents()) ==> t.id != id
      ensures r != Err(TokenNotFound) ==> r == if saves then Ok(()) else Err(PersistFailed)
      ensures Now() == Do(old(Now()), Op.Revoke(id, saves))
      ensures r != Err(TokenNotFound) ==>
                exists i :: 0 <= i < |old(Contents())| && IsFirst(old(Contents()), i, id)
                            && Contents() == old(Contents())[..i] + old(Contents())[i + 1..]
    {
      hide Indexes, IndexOfId;
      ghost var was := Contents();
      var i := 0;
      while i < len
        invariant i <= len
        invariant forall j :: 0 <= j < i ==> was[j].id != id
      {
        if data[i].id == id {
          assert IndexOfId(was, id) == i;
          assert was[i] in was;
          CloseGap(data, i, len);
          len := len - 1;
          assert Contents() == Without(was, i);
          RebuildIndex();
          var ok := Persist(saves);
          assert IsFirst(was, i, id);
          return if ok then Ok(()) else Err(PersistFailed);
        }
        i := i + 1;
      }
      assert IndexOfId(was, id) == |was|;
      return Err(TokenNotFound);
    }

    method RevokeByOwner(owner: string, saves: bool) returns (removed: nat, ok: bool)
      requires Valid()
      modifies this, data
      ensures Valid() && data == old(data)
      ensures Contents() == Filter(old(Contents()), NotOwnedBy(owner))
      ensures removed == |old(Contents())| - |Contents()|
      ensures ok == (removed == 0 || saves)
      ensures Now() == Do(old(Now()), Op.RevokeByOwner(owner, saves))
      ensures forall t :: t in Contents() <==> t in old(Contents()) && t.owner != owner
    {
      FilterMembers(old(Contents()), NotOwnedBy(owner));
      var kept := Compact(data, len, owner);
      removed := len - kept;
      if removed == 0 {
        FilterWhole(old(Contents()), NotOwnedBy(owner));
        return 0, true;
      }
      len := kept;
      RebuildIndex();
      ok := Persist(saves);
    }

    // flushTouches
    method FlushTouches(saves: bool) returns (ok: bool)
      requires Valid()
      modifies this, data
      ensures Valid() && data == old(data)
      ensures Now() == Do(old(Now()), Flush(saves))
      ensures ok == (saves || !Touches(old(Contents()), old(pendingTouch)))
      ensures pendingTouch == map[] && |Contents()| == |old(Contents())|
      ensures forall i :: 0 <= i < |Contents()| ==>
                var t := old(Contents()[i]);
                Contents()[i] == if t.id in old(pendingTouch) then t.(lastUsedAt := Some(old(pendingTouch)[t.id])) else t
    {
      ghost var was := Contents();
      var pending := pendingTouch;
      pendingTouch := map[];
      if |pending| == 0 { return true; }
      var changed := Stamp(data, len, pending);
      forall p
        ensures IndicesOf(Contents(), p) == IndicesOf(was, p)
      {
        SamePrefixes(was, Contents(), p);
      }
      if !changed {
        assert Contents() == was;
        return true;
      }
      ok := Persist(saves);
    }

    // load, into a new store
    method Load(read: FileRead) returns (r: Result<()>)
      requires Valid()
      modifies this
      ensures Valid() && (data == old(data) || fresh(data))
      ensures r.Err? <==> read.Unreadable? || read.BadJson?
      ensures r.Err? ==> Contents() == old(Contents())
      ensures r.Ok? ==> Contents() == if read.Parsed? then read.tokens else []
      ensures file == old(file) && pendingTouch == old(pendingTouch)
      ensures read == Reads(old(file)) && old(pendingTouch) == map[] ==> Now() == Do(old(Now()), Restart)
    {
      match read
      case Missing | Empty =>
        len := 0;
        RebuildIndex();
        return Ok(());
      case Unreadable | BadJson => return Err(LoadFailed);
      case Parsed(tokens) =>
        data := new Token[|tokens|](i requires 0 <= i < |tokens| => tokens[i]);
        len := |tokens|;
        assert Contents() == tokens;
        RebuildIndex();
        return Ok(());
    }
  }

  lemma {:induction false} SamePrefixes(a: seq<Token>, b: seq<Token>, p: string)
    requires |a| == |b| && forall i :: 0 <= i < |a| ==> a[i].hashPrefix == b[i].hashPrefix
    ensures IndicesOf(a, p) == IndicesOf(b, p)
  {
    if a != [] {
      SamePrefixes(a[..|a| - 1], b[..|b| - 1], p);
    }
  }

  // ---------------------------------------------------------------- over runs

  predicate Spares(op: Op, t: Token) {
    match op
    case Revoke(id, _) => t.id != id
    case RevokeByOwner(owner, _) => t.owner != owner
    case _ => true
  }

  predicate Saves(op: Op) {
    !(op.Touch? || op.Restart?) ==> op.saved
  }

  // A token without its last-used time, which no lookup depends on.
  function Bare(m: Option<Token>): Option<Token> {
    if m.Some? then Some(m.value.(lastUsedAt := None)) else None
  }

  // Wherever the file is read again, its first match for the plaintext is the
  // one in memory.
  predicate FileAgrees(c: Crypto, s: State, ops: seq<Op>, plaintext: string)
    decreases |ops|
  {
    ops == [] ||
    (&& (ops[0].Restart? ==>
           Bare(FirstMatch(c, OnDisk(s), plaintext)) == Bare(FirstMatch(c, s.tokens, plaintext)))
     && FileAgrees(c, Do(s, ops[0]), ops[1..], plaintext))
  }

  // The operations that can change which token answers a plaintext.
  predicate Harmless(c: Crypto, m: Option<Token>, op: Op, plaintext: string) {
    match m
    case Some(t) => Spares(op, t)
    case None => op.Append? ==> !Matches(c, op.token, plaintext)
  }

  lemma {:induction false} UseAllKeepsFirst(c: Crypto, ts: seq<Token>, pending: map<string, int>, plaintext: string)
    ensures Bare(FirstMatch(c, UseAll(ts, pending), plaintext)) == Bare(FirstMatch(c, ts, plaintext))
  {
    if ts != [] {
      var n := |ts| - 1;
      UseAllKeepsFirst(c, ts[..n], pending, plaintext);
      assert UseAll(ts, pending)[..n] == UseAll(ts[..n], pending);
    }
  }

  lemma {:induction false} FirstMatchConcat(c: Crypto, a: seq<Token>, b: seq<Token>, plaintext: string)
    ensures FirstMatch(c, a + b, plaintext)
         == if FirstMatch(c, a, plaintext).Some? then FirstMatch(c, a, plaintext) else FirstMatch(c, b, plaintext)
  {
    if b == [] {
      assert a + b == a;
    } else {
      var n := |b| - 1;
      FirstMatchConcat(c, a, b[..n], plaintext);
      AppendKeepsFirst(c, a + b[..n], b[n], plaintext);
      assert a + b == (a + b[..n]) + [b[n]];
    }
  }

  lemma WithoutKeepsFirst(c: Crypto, ts: seq<Token>, i: nat, plaintext: string)
    requires i < |ts| && (FirstMatch(c, ts, plaintext).Some? ==> FirstMatch(c, ts, plaintext).value != ts[i])
    ensures FirstMatch(c, Without(ts, i), plaintext) == FirstMatch(c, ts, plaintext)
  {
    var before, after := ts[..i], ts[i + 1..];
    assert ts == (before + [ts[i]]) + after;
    FirstMatchConcat(c, before + [ts[i]], after, plaintext);
    AppendKeepsFirst(c, before, ts[i], plaintext);
    FirstMatchConcat(c, before, after, plaintext);
  }

  // The operation writes memory to the file.
  predicate Writes(s: State, op: Op) {
    Saves(op) && !op.Restart? && (op.Append? || Do(s, op).tokens != s.tokens)
  }

  // The file is in step with memory after an operation that writes, whatever
  // saves failed before, and stays so through every saved operation.
  lemma InStep(s: State, op: Op)
    requires Writes(s, op) || (OnDisk(s) == s.tokens && Saves(op))
    ensures OnDisk(Do(s, op)) == Do(s, op).tokens
  {
  }

  // So the file agrees if it is never read again, or once it has been written
  // if no later save fails.
  lemma {:induction false} SavedAgrees(c: Crypto, s: State, ops: seq<Op>, plaintext: string)
    requires || (forall i :: 0 <= i < |ops| ==> !ops[i].Restart?)
             || ((OnDisk(s) == s.tokens || (ops != [] && Writes(s, ops[0]))) && forall i :: 0 <= i < |ops| ==> Saves(ops[i]))
    ensures FileAgrees(c, s, ops, plaintext)
    decreases |ops|
  {
    hide FirstMatch, OnDisk, Do;
    if ops != [] {
      if !(forall i :: 0 <= i < |ops| ==> !ops[i].Restart?) {
        InStep(s, ops[0]);
      }
      SavedAgrees(c, Do(s, ops[0]), ops[1..], plaintext);
    }
  }

  lemma StepKeepsFirst(c: Crypto, s: State, op: Op, plaintext: string)
    requires Harmless(c, FirstMatch(c, s.tokens, plaintext), op, plaintext)
    requires op.Restart? ==>
               Bare(FirstMatch(c, OnDisk(s), plaintext)) == Bare(FirstMatch(c, s.tokens, plaintext))
    ensures Bare(FirstMatch(c, Do(s, op).tokens, plaintext)) == Bare(FirstMatch(c, s.tokens, plaintext))
  {
    match op
    case Append(t, _) => AppendKeepsFirst(c, s.tokens, t, plaintext);
    case Revoke(id, _) =>
      var i := IndexOfId(s.tokens, id);
      if i < |s.tokens| {
        WithoutKeepsFirst(c, s.tokens, i, plaintext);
      }
    case RevokeByOwner(owner, _) => FilterKeepsFirst(c, s.tokens, NotOwnedBy(owner), plaintext);
    case Touch(_, _) =>
    case Flush(_) => UseAllKeepsFirst(c, s.tokens, s.pending, plaintext);
    case Restart =>
  }

  lemma {:induction false} RunKeepsFirst(c: Crypto, s: State, ops: seq<Op>, plaintext: string)
    requires FileAgrees(c, s, ops, plaintext)
    requires forall i :: 0 <= i < |ops| ==> Harmless(c, FirstMatch(c, s.tokens, plaintext), ops[i], plaintext)
    decreases |ops|
    ensures Bare(FirstMatch(c, Run(s, ops).tokens, plaintext)) == Bare(FirstMatch(c, s.tokens, plaintext))
  {
    if ops != [] {
      StepKeepsFirst(c, s, ops[0], plaintext);
      var s' := Do(s, ops[0]);
      forall i | 0 <= i < |ops[1..]|
        ensures Harmless(c, FirstMatch(c, s'.tokens, plaintext), ops[1..][i], plaintext)
      {
        assert Harmless(c, FirstMatch(c, s.tokens, plaintext), ops[i + 1], plaintext);
      }
      RunKeepsFirst(c, s', ops[1..], plaintext);
    }
  }

  // A token nobody revokes answers its plaintext the same way, at every
  // moment, after any operations on it or on others.
  lemma TokenSurvives(c: Crypto, s: State, ops: seq<Op>, plaintext: string, now: int)
    requires FileAgrees(c, s, ops, plaintext)
    requires FirstMatch(c, s.tokens, plaintext).Some?
    requires forall i :: 0 <= i < |ops| ==> Spares(ops[i], FirstMatch(c, s.tokens, plaintext).value)
    ensures Scan(c, Run(s, ops).tokens, plaintext, now) == Scan(c, s.tokens, plaintext, now)
  {
    RunKeepsFirst(c, s, ops, plaintext);
  }

  // Everything a revocation removes that this plaintext matches.
  predicate RemovesAll(c: Crypto, ts: seq<Token>, op: Op, plaintext: string) {
    match op
    case Revoke(id, _) =>
      var i := IndexOfId(ts, id);
      i < |ts| && forall j :: 0 <= j < |ts| && j != i ==> !Matches(c, ts[j], plaintext)
    case RevokeByOwner(owner, _) => AllMatchesOwned(c, ts, owner, plaintext)
    case _ => false
  }

  lemma RevokeSilences(c: Crypto, ts: seq<Token>, i: nat, plaintext: string)
    requires i < |ts|
    ensures FirstMatch(c, Without(ts, i), plaintext).None?
       <==> forall j :: 0 <= j < |ts| && j != i ==> !Matches(c, ts[j], plaintext)
  {
    var after := Without(ts, i);
    FirstMatchNone(c, after, plaintext);
    forall j | 0 <= j < |ts| && j != i
      ensures ts[j] == after[if j < i then j else j - 1]
    {
    }
  }

  predicate AllMatchesOwned(c: Crypto, ts: seq<Token>, owner: string, plaintext: string) {
    forall j :: 0 <= j < |ts| ==> Matches(c, ts[j], plaintext) ==> ts[j].owner == owner
  }

  lemma AllMatchesOwnedSnoc(c: Crypto, ts: seq<Token>, t: Token, owner: string, plaintext: string)
    ensures AllMatchesOwned(c, ts + [t], owner, plaintext)
       <==> AllMatchesOwned(c, ts, owner, plaintext) && (Matches(c, t, plaintext) ==> t.owner == owner)
  {
    var all := ts + [t];
    assert all[|ts|] == t && forall j :: 0 <= j < |ts| ==> all[j] == ts[j];
  }

  lemma {:induction false} RevokeByOwnerSilences(c: Crypto, ts: seq<Token>, owner: string, plaintext: string)
    ensures FirstMatch(c, Filter(ts, NotOwnedBy(owner)), plaintext).None? <==> AllMatchesOwned(c, ts, owner, plaintext)
  {
    if ts != [] {
      var n := |ts| - 1;
      RevokeByOwnerSilences(c, ts[..n], owner, plaintext);
      AppendKeepsFirst(c, Filter(ts[..n], NotOwnedBy(owner)), ts[n], plaintext);
      AllMatchesOwnedSnoc(c, ts[..n], ts[n], owner, plaintext);
      assert ts == ts[..n] + [ts[n]];
    }
  }

  // A revocation silences a plaintext exactly when it removes every token the
  // plaintext matches, and then until a matching token is added.
  lemma RevokedStaysDead(c: Crypto, s: State, op: Op, ops: seq<Op>, plaintext: string, now: int)
    requires (op.Revoke? && IndexOfId(s.tokens, op.id) < |s.tokens|) || op.RevokeByOwner?
    requires FileAgrees(c, Do(s, op), ops, plaintext)
    requires forall i :: 0 <= i < |ops| ==> ops[i].Append? ==> !Matches(c, ops[i].token, plaintext)
    ensures RemovesAll(c, s.tokens, op, plaintext) <==> FirstMatch(c, Do(s, op).tokens, plaintext).None?
    ensures RemovesAll(c, s.tokens, op, plaintext) ==> Scan(c, Run(s, [op] + ops).tokens, plaintext, now) == Denied
  {
    var after := Do(s, op).tokens;
    if op.Revoke? {
      RevokeSilences(c, s.tokens, IndexOfId(s.tokens, op.id), plaintext);
    } else {
      RevokeByOwnerSilences(c, s.tokens, op.owner, plaintext);
      if |Filter(s.tokens, NotOwnedBy(op.owner))| == |s.tokens| {
        FilterWhole(s.tokens, NotOwnedBy(op.owner));
      }
    }
    if RemovesAll(c, s.tokens, op, plaintext) {
      RunKeepsFirst(c, Do(s, op), ops, plaintext);
      assert ([op] + ops)[1..] == ops;
    }
  }

  // After a revocation and a restart a plaintext is silent exactly when the
  // revocation was saved and removed every token it matches, or, when nothing
  // was written, when nothing in the file matches it.
  lemma RestartAfterRevocation(c: Crypto, s: State, op: Op, plaintext: string)
    requires (op.Revoke? && IndexOfId(s.tokens, op.id) < |s.tokens|) || op.RevokeByOwner?
    ensures FirstMatch(c, Run(s, [op, Restart]).tokens, plaintext).None? <==>
            if op.saved && Do(s, op).tokens != s.tokens then RemovesAll(c, s.tokens, op, plaintext)
            else FirstMatch(c, OnDisk(s), plaintext).None?
  {
    hide FirstMatch, RemovesAll;
    RunTwo(s, op, Restart);
    RevokedStaysDead(c, s, op, [], plaintext, 0);
  }

  lemma RunTwo(s: State, a: Op, b: Op)
    ensures Run(s, [a, b]) == Do(Do(s, a), b)
  {
    var ops := [a, b];
    assert ops[1..] == [b] && ops[1..][1..] == [];
    assert Run(Do(s, a), ops[1..]) == Run(Do(Do(s, a), b), []);
  }

  // So a revocation whose save fails is undone by the next restart.
  lemma UnsavedRevocationReturns(s: State, op: Op)
    requires (op.Revoke? || op.RevokeByOwner?) && !op.saved && OnDisk(s) == s.tokens
    ensures Run(s, [op, Restart]).tokens == s.tokens
  {
    RunTwo(s, op, Restart);
  }

  // A token added for a plaintext the store denied is accepted from then on,
  // whatever else happens, exactly when no stored token matched the plaintext.
  // A stored match can only have been denied for being expired, and it keeps
  // the new one hidden for as long as it is stored.
  lemma AddedTokenAnswers(c: Crypto, s: State, t: Token, saved: bool, ops: seq<Op>, plaintext: string, now: int, later: int)
    requires PLAINTEXT_PREFIX <= plaintext && Matches(c, t, plaintext) && t.expiresAt.None?
    requires Scan(c, s.tokens, plaintext, now) == Denied && now <= later
    requires FileAgrees(c, Do(s, Append(t, saved)), ops, plaintext)
    requires forall i :: 0 <= i < |ops| ==>
               Spares(ops[i], t) && (FirstMatch(c, s.tokens, plaintext).Some? ==> Spares(ops[i], FirstMatch(c, s.tokens, plaintext).value))
    ensures Scan(c, Run(Do(s, Append(t, saved)), ops).tokens, plaintext, later)
         == if FirstMatch(c, s.tokens, plaintext).None? then Granted(t.owner, t.groups, t.id) else Denied
  {
    var after := Do(s, Append(t, saved));
    AppendKeepsFirst(c, s.tokens, t, plaintext);
    RunKeepsFirst(c, after, ops, plaintext);
  }

  // What Create issues: its plaintext answers, at every time, with the trimmed
  // owner, the groups and the id, if it was not known before; whether or not
  // the new token could be saved.
  method CreatedAnswers(store: TokenStore, owner: string, name: string, groups: seq<string>, now: int,
                        random: Option<string>, hash: Option<string>, newId: Option<string>, saves: bool, later: int)
    returns (r: Result<(string, string)>, a: Answer)
    requires store.Valid()
    modifies store, store.data
    ensures r.Ok? ==>
              Named(owner, name) && newId.Some? && random.Some? && r.value == (newId.value, PLAINTEXT_PREFIX + random.value)
    ensures r.Ok? || r == Err(PersistFailed) ==>
              && newId.Some? && random.Some? && hash.Some?
              && var plaintext := PLAINTEXT_PREFIX + random.value;
                 (store.crypto.matches(hash.value, plaintext)
                  && old(FirstMatch(store.crypto, store.Contents(), plaintext)).None? ==>
                    a == Granted(Text.TrimSpace(owner), groups, newId.value))
  {
    r := store.Create(owner, name, groups, now, random, hash, newId, saves);
    a := Denied;
    if random.Some? {
      var plaintext := PLAINTEXT_PREFIX + random.value;
      FirstMatchNone(store.crypto, old(store.Contents()), plaintext);
      a := store.Lookup(plaintext, later);
      if r.Ok? || r == Err(PersistFailed) {
        NoneBefore(store.crypto, old(store.Contents()), store.Contents(), plaintext);
      }
    }
  }

  lemma NoneBefore(c: Crypto, before: seq<Token>, after: seq<Token>, plaintext: string)
    requires |before| < |after| && after[..|before|] == before
    ensures MatchedBefore(c, after, |before|, plaintext) <==> FirstMatch(c, before, plaintext).Some?
  {
    FirstMatchNone(c, before, plaintext);
    assert forall i :: 0 <= i < |before| ==> after[i] == before[i];
  }

  // The same for a seed that reports no match, unless an expired token did.
  method SeededAnswers(store: TokenStore, owner: string, name: string, plaintext: string, groups: seq<string>, now: int,
                       hash: Option<string>, newId: Option<string>, saves: bool, later: int)
    returns (r: Result<(string, bool)>, a: Answer)
    requires store.Valid()
    modifies store, store.data
    ensures r.Ok? && !r.value.1 ==> newId.Some? && r.value.0 == newId.value
    ensures (r.Ok? && !r.value.1) || r == Err(PersistFailed) ==>
              && newId.Some? && hash.Some?
              && (store.crypto.matches(hash.value, plaintext)
                  && old(FirstMatch(store.crypto, store.Contents(), plaintext)).None? ==>
                    a == Granted(Text.TrimSpace(owner), groups, newId.value))
  {
    r := store.SeedFromPlaintext(owner, name, plaintext, groups, now, hash, newId, saves);
    a := store.Lookup(plaintext, later);
    if (r.Ok? && !r.value.1) || r == Err(PersistFailed) {
      NoneBefore(store.crypto, old(store.Contents()), store.Contents(), plaintext);
    }
  }

  // A store in which the first token the plaintext matches has expired: seeding
  // the plaintext reports no match and adds a second token, and the plaintext
  // stays refused at every later time.
  method SeedBehindExpired(c: Crypto, stored: seq<Token>, owner: string, name: string, plaintext: string, groups: seq<string>,
                           hash: string, newId: string, now: int, saves: bool, later: int)
    returns (seeded: Result<(string, bool)>, answer: Answer)
    requires PLAINTEXT_PREFIX <= plaintext && Named(owner, name)
    requires FirstMatch(c, stored, plaintext).Some? && Expired(FirstMatch(c, stored, plaintext).value, now)
    requires now <= later
    ensures seeded == (if saves then Ok((newId, false)) else Err(PersistFailed)) && answer == Denied
  {
    var store := new TokenStore(c, Some(stored));
    var loaded := store.Load(Parsed(stored));
    assert store.Contents() == stored;
    seeded := store.SeedFromPlaintext(owner, name, plaintext, groups, now, Some(hash), Some(newId), saves);
    var added := NewToken(c, owner, name, groups, plaintext, hash, newId, now);
    assert store.Contents() == stored + [added];
    AppendKeepsFirst(c, stored, added, plaintext);
    answer := store.Lookup(plaintext, later);
  }
}
