// protect/groups.go and protect/session_acl.go: group membership read from a
// file, and who may operate on a session.
module Groups {
  import opened Seqs
  import Sorting
  import Text

  datatype Error = Unreadable | EmptyFile | EmptyGroup | BadGroup | EmptyMember | BadMember | DuplicateMember

  datatype Result<+T> = Ok(value: T) | Err(error: Error)

  type File = map<string, seq<string>>
  type Index = map<string, seq<string>>

  // ------------------------------------------------------ what a file says

  // Line breaks and tabs inside a trimmed name
  predicate HasControl(s: string) {
    '\r' in s || '\n' in s || '\t' in s
  }

  function MemberError(members: seq<string>, i: nat): Option<Error>
    requires i < |members|
  {
    var m := Text.TrimSpace(members[i]);
    if m == "" then Some(EmptyMember)
    else if HasControl(m) then Some(BadMember)
    else if exists j :: 0 <= j < i && Text.TrimSpace(members[j]) == m then Some(DuplicateMember)
    else None
  }

  // The first fault among the first n members
  function MembersError(members: seq<string>, n: nat): Option<Error>
    requires n <= |members|
  {
    if n == 0 then None
    else if MembersError(members, n - 1).Some? then MembersError(members, n - 1)
    else MemberError(members, n - 1)
  }

  function GroupError(group: string, members: seq<string>): Option<Error> {
    var g := Text.TrimSpace(group);
    if g == "" then Some(EmptyGroup)
    else if HasControl(g) then Some(BadGroup)
    else MembersError(members, |members|)
  }

  predicate ListsMember(members: seq<string>, n: nat, user: string)
    requires n <= |members|
  {
    exists i :: 0 <= i < n && Text.TrimSpace(members[i]) == user
  }

  // A trimmed name that may stand in the file
  predicate GoodName(name: string) {
    var t := Text.TrimSpace(name);
    t != "" && '\r' !in t && '\n' !in t && '\t' !in t
  }

  // Which groups have no fault: good names throughout, and no member twice.
  lemma FaultlessExactly(group: string, members: seq<string>)
    ensures GroupError(group, members).None? <==>
            && GoodName(group)
            && (forall i :: 0 <= i < |members| ==> GoodName(members[i]))
            && (forall i, j :: 0 <= i < j < |members| ==> Text.TrimSpace(members[i]) != Text.TrimSpace(members[j]))
  {
    hide Text.TrimSpace;
    FaultlessMembers(members, |members|);
  }

  lemma {:induction false} FaultlessMembers(members: seq<string>, n: nat)
    requires n <= |members|
    ensures MembersError(members, n).None? <==>
            && (forall i :: 0 <= i < n ==> GoodName(members[i]))
            && (forall i, j :: 0 <= i < j < n ==> Text.TrimSpace(members[i]) != Text.TrimSpace(members[j]))
  {
    hide Text.TrimSpace;
    if n > 0 {
      FaultlessMembers(members, n - 1);
    }
  }

  // The file puts the user in the group, after trimming both.
  predicate InGroup(raw: File, user: string, group: string) {
    exists r :: r in raw && Text.TrimSpace(r) == group && ListsMember(raw[r], |raw[r]|, user)
  }

  predicate StrictlySorted(s: seq<string>) {
    forall i, j :: 0 <= i < j < |s| ==> s[i] != s[j] && Text.StrLe(s[i], s[j])
  }

  ghost predicate Lists(list: seq<string>, groups: set<string>) {
    StrictlySorted(list) && forall g :: g in list <==> g in groups
  }

  // For every user, the strictly sorted list of exactly the user's groups.
  ghost predicate Inverse(raw: File, index: Index) {
    && (forall u, g :: (u in index && g in index[u]) <==> InGroup(raw, u, g))
    && (forall u :: u in index ==> index[u] != [] && StrictlySorted(index[u]))
  }

  // ------------------------------------------------------- parseGroupsFile

  function ByName(): (string, string) -> bool {
    (a: string, b: string) => Text.StrLe(a, b)
  }

  method SortedList(groups: set<string>) returns (list: seq<string>)
    ensures Lists(list, groups)
  {
    var left := groups;
    list := [];
    while left != {}
      invariant left <= groups && NoDuplicates(list)
      invariant forall g :: g in list <==> g in groups && g !in left
      decreases |left|
    {
      var g :| g in left;
      assert g !in list;
      list := list + [g];
      left := left - {g};
    }
    ghost var before := list;
    list := Sorting.Sort(list, ByName());
    SortedStrictly(before, list);
  }

  lemma SortedStrictly(before: seq<string>, list: seq<string>)
    requires NoDuplicates(before) && list == Sorting.Sort(before, ByName())
    ensures StrictlySorted(list) && forall g :: g in list <==> g in before
  {
    forall x, y
      ensures ByName()(x, y) || ByName()(y, x)
    {
      Text.StrLeTotal(x, y);
    }
    forall x, y, z | ByName()(x, y) && ByName()(y, z)
      ensures ByName()(x, z)
    {
      Text.StrLeTransitive(x, y, z);
    }
    Sorting.SortSorts(before, ByName());
    Sorting.SortPermutes(before, ByName());
    forall g
      ensures g in list <==> g in before
    {
      assert g in list <==> g in multiset(list);
      assert g in before <==> g in multiset(before);
    }
    forall i, j | 0 <= i < j < |list|
      ensures list[i] != list[j]
    {
      if list[i] == list[j] {
        Twice(list, i, j);
        Once(before, list[i]);
      }
    }
    forall i, j | 0 <= i < j < |list|
      ensures Text.StrLe(list[i], list[j])
    {
      assert ByName()(list[i], list[j]);
    }
  }

  lemma Twice(s: seq<string>, i: nat, j: nat)
    requires i < j < |s| && s[i] == s[j]
    ensures multiset(s)[s[i]] >= 2
  {
    assert s == s[..i] + [s[i]] + s[i + 1..j] + [s[j]] + s[j + 1..];
  }

  // The groups each user was given by the first n groups visited.
  predicate SeenIn(raw: File, order: seq<string>, n: nat, u: string, g: string)
    requires n <= |order| && (forall i :: 0 <= i < |order| ==> order[i] in raw)
  {
    exists i :: 0 <= i < n && Text.TrimSpace(order[i]) == g && ListsMember(raw[order[i]], |raw[order[i]]|, u)
  }

  predicate Holds(byUser: map<string, set<string>>, u: string, g: string) {
    u in byUser && g in byUser[u]
  }

  // What the first n groups and the first m of the given members say
  ghost predicate Given(byUser: map<string, set<string>>, raw: File, order: seq<string>, n: nat,
                        group: string, members: seq<string>, m: nat)
    requires n <= |order| && m <= |members| && (forall i :: 0 <= i < |order| ==> order[i] in raw)
  {
    && (forall u, g :: Holds(byUser, u, g) <==> SeenIn(raw, order, n, u, g) || (group == g && ListsMember(members, m, u)))
    && (forall u :: u in byUser ==> byUser[u] != {})
  }

  lemma MemberStep(members: seq<string>, m: nat)
    requires m < |members|
    ensures forall u :: ListsMember(members, m + 1, u) <==> ListsMember(members, m, u) || u == Text.TrimSpace(members[m])
  {
    hide Text.TrimSpace;
    forall u
      ensures ListsMember(members, m + 1, u) <==> ListsMember(members, m, u) || u == Text.TrimSpace(members[m])
    {
      if ListsMember(members, m + 1, u) {
        var i :| 0 <= i < m + 1 && Text.TrimSpace(members[i]) == u;
        assert i < m || u == Text.TrimSpace(members[m]);
      }
    }
  }

  lemma GivenMember(byUser: map<string, set<string>>, raw: File, order: seq<string>, n: nat,
                    group: string, members: seq<string>, m: nat, after: map<string, set<string>>)
    requires n <= |order| && m < |members| && (forall i :: 0 <= i < |order| ==> order[i] in raw)
    requires Given(byUser, raw, order, n, group, members, m)
    requires var u := Text.TrimSpace(members[m]); after == byUser[u := (if u in byUser then byUser[u] else {}) + {group}]
    ensures Given(after, raw, order, n, group, members, m + 1)
  {
    hide Text.TrimSpace, ListsMember, SeenIn;
    MemberStep(members, m);
    var name := Text.TrimSpace(members[m]);
    forall u, g
      ensures Holds(after, u, g) <==> SeenIn(raw, order, n, u, g) || (group == g && ListsMember(members, m + 1, u))
    {
      assert Holds(after, u, g) <==> Holds(byUser, u, g) || (u == name && g == group);
    }
  }

  lemma NoneListed(members: seq<string>)
    ensures forall u :: !ListsMember(members, 0, u)
  {
  }

  // Between two groups it does not matter which members are named.
  lemma GivenStart(byUser: map<string, set<string>>, raw: File, order: seq<string>, n: nat,
                   g0: string, ms0: seq<string>, g1: string, ms1: seq<string>)
    requires n <= |order| && (forall i :: 0 <= i < |order| ==> order[i] in raw)
    requires Given(byUser, raw, order, n, g0, ms0, 0)
    ensures Given(byUser, raw, order, n, g1, ms1, 0)
  {
    hide ListsMember, SeenIn;
    NoneListed(ms0);
    NoneListed(ms1);
  }

  lemma GivenGroup(byUser: map<string, set<string>>, raw: File, order: seq<string>, n: nat)
    requires n < |order| && (forall i :: 0 <= i < |order| ==> order[i] in raw)
    requires Given(byUser, raw, order, n, Text.TrimSpace(order[n]), raw[order[n]], |raw[order[n]]|)
    ensures Given(byUser, raw, order, n + 1, "", [], 0)
  {
    hide Text.TrimSpace, ListsMember;
    var group, members := Text.TrimSpace(order[n]), raw[order[n]];
    NoneListed([]);
    forall u, g
      ensures SeenIn(raw, order, n + 1, u, g) <==> SeenIn(raw, order, n, u, g) || (group == g && ListsMember(members, |members|, u))
    {
      if SeenIn(raw, order, n + 1, u, g) {
        var i :| 0 <= i < n + 1 && Text.TrimSpace(order[i]) == g && ListsMember(raw[order[i]], |raw[order[i]]|, u);
        assert i < n || (group == g && ListsMember(members, |members|, u));
      }
    }
  }

  lemma GivenAll(byUser: map<string, set<string>>, raw: File, order: seq<string>)
    requires Enumerates(order, raw.Keys) && (forall i :: 0 <= i < |order| ==> order[i] in raw)
    requires Given(byUser, raw, order, |order|, "", [], 0)
    ensures forall u, g :: Holds(byUser, u, g) <==> InGroup(raw, u, g)
  {
    hide Text.TrimSpace, ListsMember;
    NoneListed([]);
    forall u, g
      ensures SeenIn(raw, order, |order|, u, g) <==> InGroup(raw, u, g)
    {
      if InGroup(raw, u, g) {
        var r :| r in raw && Text.TrimSpace(r) == g && ListsMember(raw[r], |raw[r]|, u);
        assert r in order;
        var i :| 0 <= i < |order| && order[i] == r;
      }
    }
  }

  // raw is the decoded file, None when it is null; order is the order in which
  // its groups are visited.
  method ParseGroupsFile(file: Option<File>, order: seq<string>) returns (r: Result<Index>)
    requires file.Some? ==> Enumerates(order, file.value.Keys)
    ensures file.None? ==> r == Err(EmptyFile)
    ensures file.Some? ==>
              (r.Ok? <==> forall g :: g in file.value ==> GroupError(g, file.value[g]).None?)
    ensures r.Ok? ==> Inverse(file.value, r.value)
    ensures r.Err? && file.Some? ==> exists g :: g in file.value && GroupError(g, file.value[g]) == Some(r.error)
  {
    hide Text.TrimSpace, HasControl, InGroup, SeenIn, ListsMember;
    if file.None? { return Err(EmptyFile); }
    var raw := file.value;
    assert forall i :: 0 <= i < |order| ==> order[i] in raw.Keys;
    var byUser: map<string, set<string>> := map[];
    NothingGiven(raw, order);
    for n := 0 to |order|
      invariant Given(byUser, raw, order, n, "", [], 0)
      invariant forall i :: 0 <= i < n ==> GroupError(order[i], raw[order[i]]).None?
    {
      hide Given;
      var members := raw[order[n]];
      var group := Text.TrimSpace(order[n]);
      if group == "" { return Err(EmptyGroup); }
      if HasControl(group) { return Err(BadGroup); }
      var seen: set<string> := {};
      NothingSeen(members);
      GivenStart(byUser, raw, order, n, "", [], group, members);
      for m := 0 to |members|
        invariant Given(byUser, raw, order, n, group, members, m)
        invariant forall u :: u in seen <==> ListsMember(members, m, u)
        invariant MembersError(members, m).None?
      {
        var name := Text.TrimSpace(members[m]);
        FaultStays(members, m + 1, |members|);
        DuplicateMeans(members, m);
        if name == "" { return Err(EmptyMember); }
        if HasControl(name) { return Err(BadMember); }
        if name in seen { return Err(DuplicateMember); }
        seen := seen + {name};
        MemberStep(members, m);
        ghost var after := byUser[name := (if name in byUser then byUser[name] else {}) + {group}];
        GivenMember(byUser, raw, order, n, group, members, m, after);
        if name !in byUser {
          byUser := byUser[name := {}];
        }
        byUser := byUser[name := byUser[name] + {group}];
        assert byUser == after;
      }
      GivenGroup(byUser, raw, order, n);
    }
    GivenAll(byUser, raw, order);
    hide Given, GroupError, MembersError, Lists, Inverse;
    var index: Index := map[];
    var left := byUser.Keys;
    while left != {}
      invariant left <= byUser.Keys && index.Keys == byUser.Keys - left
      invariant forall u :: u in index ==> Lists(index[u], byUser[u])
      decreases |left|
    {
      var user :| user in left;
      var list := SortedList(byUser[user]);
      index := index[user := list];
      left := left - {user};
    }
    IndexInverse(raw, byUser, index);
    assert forall g :: g in raw ==> g in order;
    return Ok(index);
  }

  lemma IndexInverse(raw: File, byUser: map<string, set<string>>, index: Index)
    requires index.Keys == byUser.Keys
    requires forall u :: u in index ==> Lists(index[u], byUser[u])
    requires forall u, g :: Holds(byUser, u, g) <==> InGroup(raw, u, g)
    requires forall u :: u in byUser ==> byUser[u] != {}
    ensures Inverse(raw, index)
  {
    hide InGroup, StrictlySorted;
    forall u, g
      ensures (u in index && g in index[u]) <==> InGroup(raw, u, g)
    {
      assert Holds(byUser, u, g) <==> InGroup(raw, u, g);
    }
    forall u | u in index
      ensures index[u] != []
    {
      var g :| g in byUser[u];
      assert g in index[u];
    }
  }

  lemma NothingGiven(raw: File, order: seq<string>)
    requires forall i :: 0 <= i < |order| ==> order[i] in raw
    ensures Given(map[], raw, order, 0, "", [], 0)
  {
  }

  lemma NothingSeen(members: seq<string>)
    ensures MembersError(members, 0).None?
    ensures forall u :: !ListsMember(members, 0, u)
  {
  }

  lemma {:induction false} FaultStays(members: seq<string>, m: nat, n: nat)
    requires m <= n <= |members|
    ensures MembersError(members, m).Some? ==> MembersError(members, n) == MembersError(members, m)
  {
    hide MemberError;
    if m < n {
      FaultStays(members, m, n - 1);
    }
  }

  lemma DuplicateMeans(members: seq<string>, m: nat)
    requires m < |members|
    ensures MemberError(members, m) ==
            if Text.TrimSpace(members[m]) == "" then Some(EmptyMember)
            else if HasControl(Text.TrimSpace(members[m])) then Some(BadMember)
            else if ListsMember(members, m, Text.TrimSpace(members[m])) then Some(DuplicateMember)
            else None
  {
    hide Text.TrimSpace, HasControl;
  }

  // ------------------------------------------------------------ the provider

  class FileGroupsProvider {
    var byUser: Index

    constructor ()
      ensures byUser == map[]
    {
      byUser := map[];
    }

    // file is what reading gave: an error, or the decoded content.
    method Reload(file: Result<Option<File>>, order: seq<string>) returns (r: Result<()>)
      requires file.Ok? && file.value.Some? ==> Enumerates(order, file.value.value.Keys)
      modifies this
      ensures r.Err? ==> byUser == old(byUser)
      ensures r.Ok? ==> file.Ok? && file.value.Some? && Inverse(file.value.value, byUser)
      ensures r.Ok? <==>
              file.Ok? && file.value.Some? && forall g :: g in file.value.value ==> GroupError(g, file.value.value[g]).None?
    {
      if file.Err? { return Err(file.error); }
      var parsed := ParseGroupsFile(file.value, order);
      if parsed.Err? { return Err(parsed.error); }
      byUser := parsed.value;
      return Ok(());
    }

    function GroupsFor(user: string): (groups: seq<string>)
      reads this
      ensures forall g :: g in groups <==> user != "" && user in byUser && g in byUser[user]
    {
      if user == "" || user !in byUser then [] else byUser[user]
    }
  }

  // ------------------------------------------------------------ session access

  datatype Identity = Identity(user: string, groups: seq<string>, isAdmin: bool)

  method GroupsIntersect(a: seq<string>, b: seq<string>) returns (r: bool)
    ensures r <==> exists g :: g != "" && g in a && g in b
  {
    if |a| == 0 || |b| == 0 { return false; }
    var names: set<string> := {};
    for i := 0 to |a|
      invariant forall g :: g in names <==> g != "" && g in a[..i]
    {
      assert a[..i + 1] == a[..i] + [a[i]];
      if a[i] != "" {
        names := names + {a[i]};
      }
    }
    assert a[..|a|] == a;
    for i := 0 to |b|
      invariant forall j :: 0 <= j < i ==> b[j] !in names
    {
      if b[i] in names { return true; }
    }
    return false;
  }

  predicate MayAccess(id: Identity, owner: string, ownerGroups: seq<string>) {
    id.isAdmin || (owner != "" && owner == id.user) || exists g :: g != "" && g in id.groups && g in ownerGroups
  }

  method SessionAccess(id: Identity, owner: string, ownerGroups: seq<string>) returns (r: bool)
    ensures r == MayAccess(id, owner, ownerGroups)
    ensures id.isAdmin ==> r
    ensures owner != "" && owner == id.user ==> r
    ensures r && !id.isAdmin && (owner == "" || owner != id.user) ==> exists g :: g != "" && g in id.groups && g in ownerGroups
  {
    if id.isAdmin { return true; }
    if owner != "" && owner == id.user { return true; }
    r := GroupsIntersect(id.groups, ownerGroups);
  }

  // With both sides' groups taken from one file that parsed, a user may operate
  // on a session exactly when they are an admin, own it, or the file puts them
  // and the owner in one group.
  lemma AccessExact(raw: File, p: FileGroupsProvider, user: string, admin: bool, owner: string)
    requires Inverse(raw, p.byUser) && forall g :: g in raw ==> GroupError(g, raw[g]).None?
    ensures MayAccess(Identity(user, p.GroupsFor(user), admin), owner, p.GroupsFor(owner)) <==>
            admin || (owner != "" && owner == user) || exists g :: InGroup(raw, user, g) && InGroup(raw, owner, g)
  {
    hide InGroup, GroupError;
    forall g | InGroup(raw, user, g) && InGroup(raw, owner, g)
      ensures g != "" && g in p.GroupsFor(user) && g in p.GroupsFor(owner)
    {
      NamesAreNotEmpty(raw, user, g);
      NamesAreNotEmpty(raw, owner, g);
    }
  }

  lemma NamesAreNotEmpty(raw: File, user: string, group: string)
    requires InGroup(raw, user, group) && forall g :: g in raw ==> GroupError(g, raw[g]).None?
    ensures user != "" && group != ""
  {
    hide Text.TrimSpace, HasControl;
    var r :| r in raw && Text.TrimSpace(r) == group && ListsMember(raw[r], |raw[r]|, user);
    var i :| 0 <= i < |raw[r]| && Text.TrimSpace(raw[r][i]) == user;
    assert GroupError(r, raw[r]).None?;
    FaultStays(raw[r], i + 1, |raw[r]|);
  }
}
