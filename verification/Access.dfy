// Who may use an account, and that sharing one changes exactly that.
module Access {
  import opened Roles
  import opened StoreOps
  import opened Tables
  import opened Text
  import opened Wrappers

  predicate HasRole(t: Tables, u: nat, role: string) {
    u in t.users && role in t.users[u].roles
  }

  predicate InGroup(t: Tables, u: nat, g: nat) {
    (g, u) in t.memberUsers || exists role :: role in Of(t.memberRoles, g) && role != "" && HasRole(t, u, role)
  }

  predicate ByRole(t: Tables, u: nat, row: Row) {
    exists role :: role in row.roles && HasRole(t, u, role)
  }

  predicate ByGroup(t: Tables, u: nat, row: Row) {
    exists g :: g in row.groups && InGroup(t, u, g)
  }

  /** An unrestricted account without any grant is open to everyone. */
  predicate Ungranted(row: Row) {
    row.roles == {} && row.users == {} && row.groups == {}
  }

  predicate AllowedByRow(t: Tables, u: nat, row: Row) {
    && row.account.Some?
    && !row.account.value.disabled
    && if row.account.value.restricted
       then row.account.value.owner == Some(u) || u in row.shares || ByRole(t, u, row) || ByGroup(t, u, row)
       else Ungranted(row) || ByRole(t, u, row) || u in row.users || ByGroup(t, u, row)
  }

  /** The accounts a user may use, as the query says it. */
  predicate Allowed(t: Tables, u: nat, a: nat) {
    AllowedByRow(t, u, RowOf(t, a))
  }

  /** Allowed reads users, groups and the account's own row, nothing else. */
  lemma AllowedFrame(t: Tables, s: Tables, u: nat, row: Row)
    requires WorldOf(t) == WorldOf(s)
    ensures AllowedByRow(t, u, row) <==> AllowedByRow(s, u, row)
    ensures forall g :: InGroup(t, u, g) <==> InGroup(s, u, g)
  {
  }

  // ----- Each store step changes one row -----

  lemma {:induction false} AcceptedAre(ids: seq<nat>, known: set<nat>)
    ensures Elems(Accepted(ids, known)) <= known && Elems(Accepted(ids, known)) <= Elems(ids)
    ensures Accepted(ids, known) == ids <==> Elems(ids) <= known
  {
    if ids != [] && ids[0] in known {
      AcceptedAre(ids[1..], known);
      assert ids == [ids[0]] + ids[1..];
      assert forall x :: x in ids <==> x == ids[0] || x in ids[1..];
      var rest := Accepted(ids[1..], known);
      assert forall x :: x in [ids[0]] + rest <==> x == ids[0] || x in rest;
    } else if ids != [] {
      assert ids[0] in Elems(ids);
    }
  }

  lemma AccountUpdated(t: Tables, a: nat, account: Account)
    requires Valid(t) && a in t.accounts
    requires account.username == t.accounts[a].username
    requires account.owner.Some? ==> account.owner.value in t.users
    ensures var t' := t.(accounts := t.accounts[a := account]);
      Valid(t') && Changes(t, t', a, RowOf(t, a).(account := Some(account)))
  {
    hide Of, NamesOf, TagsOf, Valid;
    assert t.accounts[a := account].Keys == t.accounts.Keys;
    AccountUpdatedValid(t, a, account);
  }

  lemma AccountUpdatedValid(t: Tables, a: nat, account: Account)
    requires Valid(t) && a in t.accounts
    requires account.username == t.accounts[a].username
    requires account.owner.Some? ==> account.owner.value in t.users
    ensures Valid(t.(accounts := t.accounts[a := account]))
  {
    hide UsersIndexed, NamesFiled, TagsFiled, KeysIn, ValuesIn, NamesRefer, TagsRefer, GroupsNumbered, AccountKey;
    assert t.accounts[a := account].Keys == t.accounts.Keys;
  }

  lemma SetPasswordStep(t: Tables, a: nat, password: string)
    requires Valid(t) && a in t.accounts
    ensures var t' := SetEQPassword(t, a, password);
      Valid(t') && Changes(t, t', a, RowOf(t, a).(account := Some(t.accounts[a].(password := password))))
  {
    hide Valid, Changes;
    OwnerKnown(t, a);
    AccountUpdated(t, a, t.accounts[a].(password := password));
  }

  lemma SetDisabledStep(t: Tables, a: nat, disabled: bool)
    requires Valid(t) && a in t.accounts
    ensures var t' := SetEQDisabled(t, a, disabled);
      Valid(t') && Changes(t, t', a, RowOf(t, a).(account := Some(t.accounts[a].(disabled := disabled))))
  {
    hide Valid, Changes;
    OwnerKnown(t, a);
    AccountUpdated(t, a, t.accounts[a].(disabled := disabled));
  }

  lemma MakeRestrictedStep(t: Tables, a: nat, owner: nat)
    requires Valid(t) && a in t.accounts && owner in t.users
    ensures var t' := MakeRestricted(t, a, owner);
      Valid(t') && Changes(t, t', a, RowOf(t, a).(account := Some(t.accounts[a].(restricted := true, owner := Some(owner)))))
  {
    hide Valid, Changes;
    AccountUpdated(t, a, t.accounts[a].(restricted := true, owner := Some(owner)));
  }

  lemma OwnerKnown(t: Tables, a: nat)
    requires Valid(t) && a in t.accounts
    ensures t.accounts[a].owner.Some? ==> t.accounts[a].owner.value in t.users
  {
  }

  /** A new account starts with nothing but its name and password. */
  lemma AddAccountStep(t: Tables, username: string, password: string)
    requires Valid(t) && AccountKey(username) !in t.accountIds
    ensures var (t', id) := AddEQAccount(t, username, password);
      && id == Some(t.nextAccount) && t.nextAccount !in t.accounts && t.nextAccount > 0 && Valid(t')
      && WorldOf(t') == WorldOf(t)
      && t'.accountIds == t.accountIds[AccountKey(username) := t.nextAccount]
      && t'.accounts.Keys == t.accounts.Keys + {t.nextAccount}
      && RowOf(t', t.nextAccount) == Row(Some(Account(username, password, false, false, None)), {}, {}, {}, {}, {}, {}, {})
      && forall b: nat :: b != t.nextAccount ==> RowOf(t', b) == RowOf(t, b)
  {
    hide Valid, Of, NamesOf, TagsOf, AccountKey;
    NextIsFree(t);
    BareRow(t, t.nextAccount);
    MoreAccounts(t, username, password);
    var t' := AddEQAccount(t, username, password).0;
    assert t'.accounts.Keys == t.accounts.Keys + {t.nextAccount};
  }

  lemma NextIsFree(t: Tables)
    requires Valid(t)
    ensures t.nextAccount !in t.accounts && t.nextAccount > 0
  {
  }

  lemma MoreAccounts(t: Tables, username: string, password: string)
    requires Valid(t) && AccountKey(username) !in t.accountIds
    ensures Valid(AddEQAccount(t, username, password).0)
  {
    hide UsersIndexed, AccountsIndexed, NamesFiled, TagsFiled, ValuesIn, GroupsNumbered, AccountKey;
    AccountsIndexedAdd(t, username, password);
    assert t.accounts.Keys <= AddEQAccount(t, username, password).0.accounts.Keys;
  }

  lemma AccountsIndexedAdd(t: Tables, username: string, password: string)
    requires AccountsIndexed(t.accounts, t.accountIds, t.nextAccount) && AccountKey(username) !in t.accountIds
    ensures AccountsIndexed(t.accounts[t.nextAccount := Account(username, password, false, false, None)],
                            t.accountIds[AccountKey(username) := t.nextAccount], t.nextAccount + 1)
  {
    hide AccountKey;
  }

  lemma RolesStep(t: Tables, a: nat, roles: seq<string>)
    requires Valid(t) && a in t.accounts
    ensures var (t', ok) := ReplaceAccountRoles(t, a, roles);
      ok && Valid(t') && Changes(t, t', a, RowOf(t, a).(roles := Elems(CleanRoles(roles))))
  {
    hide CleanRoles, Of, Put, NamesOf, TagsOf, UsersIndexed, AccountsIndexed, OwnersIn, NamesFiled, TagsFiled, ValuesIn, GroupsNumbered, KeysIn, NamesRefer, TagsRefer;
    var values := Elems(CleanRoles(roles));
    PutKeys(t.accessRoles, a, values, t.accounts.Keys);
    forall b: nat { OfPut(t.accessRoles, a, values, b); }
  }

  lemma UsersStep(t: Tables, a: nat, users: seq<int>)
    requires Valid(t) && a in t.accounts
    ensures var (t', ok) := ReplaceAccountUsers(t, a, users);
      && (ok <==> Elems(CleanIds(users)) <= t.users.Keys)
      && Valid(t') && Changes(t, t', a, RowOf(t, a).(users := Elems(Accepted(CleanIds(users), t.users.Keys))))
      && (ok ==> Changes(t, t', a, RowOf(t, a).(users := Elems(CleanIds(users)))))
  {
    hide CleanIds, Accepted, Of, Put, NamesOf, TagsOf, UsersIndexed, AccountsIndexed, OwnersIn, NamesFiled, TagsFiled, ValuesIn, GroupsNumbered, KeysIn, NamesRefer, TagsRefer;
    var values := Elems(Accepted(CleanIds(users), t.users.Keys));
    AcceptedAre(CleanIds(users), t.users.Keys);
    PutKeys(t.accessUsers, a, values, t.accounts.Keys);
    PutValues(t.accessUsers, a, values, t.users.Keys);
    forall b: nat { OfPut(t.accessUsers, a, values, b); }
  }

  lemma GroupsStep(t: Tables, a: nat, groups: seq<int>)
    requires Valid(t) && a in t.accounts
    ensures var (t', ok) := ReplaceAccountGroups(t, a, groups);
      && (ok <==> Elems(CleanIds(groups)) <= t.groups.Keys)
      && Valid(t') && Changes(t, t', a, RowOf(t, a).(groups := Elems(Accepted(CleanIds(groups), t.groups.Keys))))
      && (ok ==> Changes(t, t', a, RowOf(t, a).(groups := Elems(CleanIds(groups)))))
  {
    hide CleanIds, Accepted, Of, Put, NamesOf, TagsOf, UsersIndexed, AccountsIndexed, OwnersIn, NamesFiled, TagsFiled, ValuesIn, GroupsNumbered, KeysIn, NamesRefer, TagsRefer;
    var values := Elems(Accepted(CleanIds(groups), t.groups.Keys));
    AcceptedAre(CleanIds(groups), t.groups.Keys);
    PutKeys(t.links, a, values, t.accounts.Keys);
    PutValues(t.links, a, values, t.groups.Keys);
    forall b: nat { OfPut(t.links, a, values, b); }
  }

  /** Partial failure shows: the rows are the recipients before the first bad one. */
  lemma SharesStep(t: Tables, a: nat, users: seq<int>)
    requires Valid(t) && a in t.accounts
    ensures var (t', ok) := ReplaceAccountShares(t, a, users);
      && (ok <==> Elems(CleanIds(users)) <= Sharable(t))
      && Valid(t') && Changes(t, t', a, RowOf(t, a).(shares := Elems(Accepted(CleanIds(users), Sharable(t)))))
      && (ok ==> Changes(t, t', a, RowOf(t, a).(shares := Elems(CleanIds(users)))))
  {
    hide CleanIds, Accepted, Of, Put, NamesOf, TagsOf, UsersIndexed, AccountsIndexed, OwnersIn, NamesFiled, TagsFiled, ValuesIn, GroupsNumbered, KeysIn, NamesRefer, TagsRefer;
    var values := Elems(Accepted(CleanIds(users), Sharable(t)));
    AcceptedAre(CleanIds(users), Sharable(t));
    PutKeys(t.shares, a, values, t.accounts.Keys);
    PutValues(t.shares, a, values, t.users.Keys);
    forall b: nat { OfPut(t.shares, a, values, b); }
  }

  lemma AddNameStep(names: map<string, Named>, text: string, a: nat)
    requires NamesFiled(names)
    ensures var (names', ok) := AddName(names, text, a, true);
      && NamesFiled(names')
      && (forall ids: set<nat> :: NamesRefer(names, ids) && a in ids ==> NamesRefer(names', ids))
      && (forall b: nat :: b != a ==> NamesOf(names', b) == NamesOf(names, b))
      && (ok && Lower(Trim(text)) !in names ==> NamesOf(names', a) == NamesOf(names, a) + {Trim(text)})
      && (!ok || Lower(Trim(text)) in names ==> names' == names)
  {
    TrimTrims(text);
    var (names', ok) := AddName(names, text, a, true);
    if ok && Lower(Trim(text)) !in names {
      forall b: nat, x: string
        ensures x in NamesOf(names', b) <==> x in NamesOf(names, b) || (b == a && x == Trim(text))
      {
        InNamesOf(names', b, x);
        InNamesOf(names, b, x);
      }
    }
  }

  /** Adding a free alias adds it; any other attempt changes nothing. */
  lemma AddAliasStep(t: Tables, alias: string, a: nat)
    requires Valid(t) && a in t.accounts
    ensures var (t', ok) := AddAlias(t, alias, a);
      && Valid(t')
      && Changes(t, t', a, RowOf(t, a).(aliases := RowOf(t', a).aliases))
      && t' == t.(aliases := t'.aliases)
  {
    hide AddName, Of, NamesOf, TagsOf, UsersIndexed, AccountsIndexed, OwnersIn, NamesFiled, TagsFiled, ValuesIn, GroupsNumbered, KeysIn, NamesRefer, TagsRefer;
    AddNameStep(t.aliases, alias, a);
  }

  lemma {:induction false} AddAliasesStep(t: Tables, username: string, aliases: seq<string>, a: nat)
    requires Valid(t) && a in t.accounts
    ensures var t' := AddAliases(t, username, aliases, a);
      && Valid(t')
      && Changes(t, t', a, RowOf(t, a).(aliases := RowOf(t', a).aliases))
      && t' == t.(aliases := t'.aliases)
    decreases |aliases|
  {
    hide Valid, AddAlias, RowOf;
    if aliases == [] {
    } else {
      var last := |aliases| - 1;
      AddAliasesStep(t, username, aliases[..last], a);
      var before := AddAliases(t, username, aliases[..last], a);
      AddAliasStep(before, Trim(aliases[last]), a);
    }
  }

  // ----- One account changes -----

  /** The account a username has or gets. */
  function AccountFor(t: Tables, username: string): nat {
    match FindAccount(t, username)
    case None => t.nextAccount
    case Some(id) => id
  }

  /** Only account a differs, and it is indexed under `key`. */
  ghost predicate OneRow(t: Tables, t': Tables, a: nat, key: string) {
    && Valid(t') && WorldOf(t') == WorldOf(t)
    && a > 0 && a in t'.accounts
    && t'.accountIds == t.accountIds[key := a]
    && t'.accounts.Keys == t.accounts.Keys + {a}
    && forall b: nat :: b != a ==> RowOf(t', b) == RowOf(t, b)
  }

  lemma OneRowThen(t: Tables, t1: Tables, t2: Tables, a: nat, key: string)
    requires OneRow(t, t1, a, key) && Valid(t2) && Changes(t1, t2, a, RowOf(t2, a))
    ensures OneRow(t, t2, a, key) && a in t2.accounts && WorldOf(t2) == WorldOf(t)
  {
    hide Valid, RowOf;
  }

  lemma OneRowFacts(t: Tables, t': Tables, a: nat, key: string)
    requires OneRow(t, t', a, key)
    ensures Valid(t') && a in t'.accounts && WorldOf(t') == WorldOf(t)
  {
    hide Valid, RowOf;
  }

  // ----- Sharing -----

  /** The account row a share writes. */
  function SharedAccount(t: Tables, owner: nat, username: string, password: string): Option<Account> {
    match FindAccount(t, username)
    case None => Some(Account(username, password, false, true, Some(owner)))
    case Some(id) =>
      if id !in t.accounts then None
      else Some(t.accounts[id].(password := if Trim(password) != "" then password else t.accounts[id].password,
                                restricted := true, owner := Some(owner)))
  }

  /** A share finds a target exactly when the name is free and a password given, or the
      account is already the owner's restricted one. */
  predicate CanShare(t: Tables, owner: nat, username: string, password: string) {
    match FindAccount(t, username)
    case None => Trim(password) != ""
    case Some(id) => id in t.accounts && t.accounts[id].restricted && t.accounts[id].owner == Some(owner)
  }

  /** The account a successful share writes to, before names and grants. */
  ghost predicate Targeted(t: Tables, t': Tables, a: nat, owner: nat, username: string, password: string) {
    var row := RowOf(t', a);
    && a > 0 && a in t'.accounts && Valid(t') && WorldOf(t') == WorldOf(t)
    && row.account.Some? && row.account.value.restricted && row.account.value.owner == Some(owner)
    && row.account == SharedAccount(t, owner, username, password)
    && row.users == {} && row.shares == SharesBefore(t, username)
    && row.shares == RowOf(t, a).shares && row.roles == RowOf(t, a).roles && row.groups == RowOf(t, a).groups
    && t'.aliases == t.aliases
    && row.aliases == RowOf(t, a).aliases && row.characters == RowOf(t, a).characters && row.tags == RowOf(t, a).tags
    && t'.accountIds == t.accountIds[AccountKey(username) := a]
    && t'.accounts.Keys == t.accounts.Keys + {a}
    && forall b: nat :: b != a ==> RowOf(t', b) == RowOf(t, b)
  }

  lemma ShareTargetStep(t: Tables, owner: nat, username: string, password: string)
    requires Valid(t) && owner in t.users && Trim(username) == username && username != ""
    ensures var (t', target) := ShareTarget(t, owner, username, password);
      && (target.Ok? <==> CanShare(t, owner, username, password))
      && (target.Err? ==> t' == t)
      && (target.Ok? ==> Targeted(t, t', target.value, owner, username, password))
  {
    hide Targeted, Valid, AccountKey, FindAccount, ReplaceAccountUsers, MakeRestricted, SetEQPassword, AddEQAccount;
    match FindAccount(t, username)
    case Some(id) =>
      if id in t.accounts && t.accounts[id].restricted && t.accounts[id].owner == Some(owner) {
        ReshareTarget(t, owner, username, id, password);
      }
    case None =>
      if Trim(password) != "" {
        NewTarget(t, owner, username, password);
      }
  }

  lemma ReshareTarget(t: Tables, owner: nat, username: string, id: nat, password: string)
    requires Valid(t) && owner in t.users && FindAccount(t, username) == Some(id)
    requires id in t.accounts && t.accounts[id].restricted && t.accounts[id].owner == Some(owner)
    ensures var t1 := if Trim(password) != "" then SetEQPassword(t, id, password) else t;
      Targeted(t, ReplaceAccountUsers(MakeRestricted(t1, id, owner), id, []).0, id, owner, username, password)
  {
    hide Valid, Of, NamesOf, TagsOf, AccountKey, SetEQPassword, MakeRestricted, ReplaceAccountUsers;
    var t1 := if Trim(password) != "" then SetEQPassword(t, id, password) else t;
    ReshareStep(t, t1, owner, id, password);
    TargetAliases(t, owner, username, id, password);
    assert t.accountIds[AccountKey(username) := id] == t.accountIds;
    assert t.accounts.Keys + {id} == t.accounts.Keys;
  }

  lemma NewTarget(t: Tables, owner: nat, username: string, password: string)
    requires Valid(t) && owner in t.users && FindAccount(t, username).None?
    requires Trim(username) == username && username != ""
    ensures var (t1, added) := AddEQAccount(t, username, password);
      added == Some(t.nextAccount) && Targeted(t, MakeRestricted(t1, t.nextAccount, owner), t.nextAccount, owner, username, password)
  {
    hide Valid, Of, NamesOf, TagsOf, AccountKey, MakeRestricted, AddEQAccount;
    KeyNotBlank(username);
    AddAccountStep(t, username, password);
    BareRow(t, t.nextAccount);
    MakeRestrictedStep(AddEQAccount(t, username, password).0, t.nextAccount, owner);
    TargetAliases(t, owner, username, t.nextAccount, password);
  }

  lemma TargetAliases(t: Tables, owner: nat, username: string, id: nat, password: string)
    ensures ReplaceAccountUsers(MakeRestricted(SetEQPassword(t, id, password), id, owner), id, []).0.aliases == t.aliases
    ensures ReplaceAccountUsers(MakeRestricted(t, id, owner), id, []).0.aliases == t.aliases
    ensures MakeRestricted(AddEQAccount(t, username, password).0, id, owner).aliases == t.aliases
  {
    hide *;
    var t1, t2 := SetEQPassword(t, id, password), AddEQAccount(t, username, password).0;
    PasswordAside(t, id, password);
    AddAside(t, username, password);
    RestrictedAside(t, id, owner);
    RestrictedAside(t1, id, owner);
    RestrictedAside(t2, id, owner);
    GrantsAside(MakeRestricted(t, id, owner), id);
    GrantsAside(MakeRestricted(t1, id, owner), id);
  }

  lemma PasswordAside(t: Tables, id: nat, password: string)
    ensures SetEQPassword(t, id, password).aliases == t.aliases
  {
  }

  lemma RestrictedAside(t: Tables, id: nat, owner: nat)
    ensures MakeRestricted(t, id, owner).aliases == t.aliases
  {
  }

  lemma AddAside(t: Tables, username: string, password: string)
    ensures AddEQAccount(t, username, password).0.aliases == t.aliases
  {
  }

  lemma GrantsAside(t: Tables, id: nat)
    ensures ReplaceAccountUsers(t, id, []).0.aliases == t.aliases
  {
  }

  lemma ReshareStep(t: Tables, t1: Tables, owner: nat, id: nat, password: string)
    requires Valid(t) && owner in t.users && id in t.accounts
    requires t.accounts[id].restricted && t.accounts[id].owner == Some(owner)
    requires t1 == if Trim(password) != "" then SetEQPassword(t, id, password) else t
    ensures var t' := ReplaceAccountUsers(MakeRestricted(t1, id, owner), id, []).0;
      && Valid(t') && id > 0
      && Changes(t, t', id,
           RowOf(t, id).(account := Some(t.accounts[id].(password := if Trim(password) != "" then password else t.accounts[id].password)),
                         users := {}))
  {
    hide Valid, RowOf, SetEQPassword, MakeRestricted, ReplaceAccountUsers, Accepted, CleanIds;
    IdPositive(t, id);
    AccountInRow(t, id);
    if Trim(password) != "" {
      SetPasswordStep(t, id, password);
    }
    AccountInRow(t1, id);
    MakeRestrictedStep(t1, id, owner);
    UsersStep(MakeRestricted(t1, id, owner), id, []);
    NoIds(t.users.Keys);
  }

  lemma IdPositive(t: Tables, id: nat)
    requires Valid(t) && id in t.accounts
    ensures id > 0
  {
  }

  lemma AccountInRow(t: Tables, a: nat)
    ensures RowOf(t, a).account == if a in t.accounts then Some(t.accounts[a]) else None
  {
  }

  lemma NoIds(known: set<nat>)
    ensures CleanIds([]) == [] && Elems(Accepted(CleanIds([]), known)) == {}
  {
  }

  lemma KeyNotBlank(username: string)
    requires Trim(username) == username && username != ""
    ensures AccountKey(username) != ""
  {
    assert |Lower(username)| == |username|;
  }

  lemma CleanTwice(roles: seq<string>)
    ensures CleanRoles(CleanRoles(roles)) == CleanRoles(roles)
  {
    CleanRolesIsClean(roles);
    CleanRolesFixed(CleanRoles(roles));
  }

  lemma {:induction false} CleanIdsAre(ids: seq<int>)
    ensures forall i: nat :: i in CleanIds(ids) <==> i in ids && i > 0
    ensures forall i :: 0 <= i < |CleanIds(ids)| ==> CleanIds(ids)[i] > 0
    ensures forall i, j :: 0 <= i < j < |CleanIds(ids)| ==> CleanIds(ids)[i] != CleanIds(ids)[j]
  {
    if ids != [] {
      var last := |ids| - 1;
      CleanIdsAre(ids[..last]);
      assert ids == ids[..last] + [ids[last]];
      assert forall i :: i in ids <==> i in ids[..last] || i == ids[last];
    }
  }

  lemma {:induction false} CleanIdsFixed(ids: seq<nat>)
    requires forall i :: 0 <= i < |ids| ==> ids[i] > 0
    requires forall i, j :: 0 <= i < j < |ids| ==> ids[i] != ids[j]
    ensures CleanIds(ids) == ids
  {
    if ids != [] {
      var last := |ids| - 1;
      CleanIdsFixed(ids[..last]);
      assert ids == ids[..last] + [ids[last]];
      assert ids[last] !in ids[..last];
    }
  }

  lemma CleanIdsTwice(ids: seq<int>)
    ensures CleanIds(CleanIds(ids)) == CleanIds(ids)
  {
    CleanIdsAre(ids);
    CleanIdsFixed(CleanIds(ids));
  }

  /** What a successful share leaves: one row, with exactly the grants it was given. */
  lemma ShareStep(t: Tables, owner: nat, username: string, password: string, aliases: seq<string>,
                  users: seq<int>, roles: seq<string>, groups: seq<int>)
    requires Valid(t) && owner in t.users
    ensures var (t', result) := ShareLocalAccount(t, owner, username, password, aliases, users, roles, groups);
      result.Ok? ==>
        var a := result.value.account;
        var row := RowOf(t', a);
        && a > 0 && Valid(t') && WorldOf(t') == WorldOf(t) && a in t'.accounts
        && row.account.Some? && row.account.value.restricted && row.account.value.owner == Some(owner)
        && row.account == SharedAccount(t, owner, Trim(username), password)
        && row.shares == Elems(Recipients(owner, users))
        && row.roles == Elems(CleanRoles(roles))
        && row.users == {}
        && row.groups == Elems(CleanIds(groups))
        && row.characters == RowOf(t, a).characters && row.tags == RowOf(t, a).tags
        && t'.accountIds == t.accountIds[AccountKey(Trim(username)) := a]
        && t'.accounts.Keys == t.accounts.Keys + {a}
        && forall b: nat :: b != a ==> RowOf(t', b) == RowOf(t, b)
  {
    hide Valid, RowOf, Elems, CleanIds, CleanRoles, Accepted, Sharable, ShareTarget, AddAliases, SharesBefore,
         ReplaceAccountShares, ReplaceAccountRoles, ReplaceAccountGroups, WithoutOwner, NewRecipients, AccountKey;
    var name := Trim(username);
    if name != "" {
      TrimTrims(username);
      TrimOfTrimmed(name);
      ShareTargetStep(t, owner, name, password);
      var (t1, target) := ShareTarget(t, owner, name, password);
      if target.Ok? {
        var id := target.value;
        AddAliasesStep(t1, name, aliases, id);
        var t2 := AddAliases(t1, name, aliases, id);
        SharesStep(t2, id, Recipients(owner, users));
        var t3 := ReplaceAccountShares(t2, id, Recipients(owner, users)).0;
        RolesStep(t3, id, CleanRoles(roles));
        var t4 := ReplaceAccountRoles(t3, id, CleanRoles(roles)).0;
        GroupsStep(t4, id, CleanIds(groups));
        CleanIdsTwice(WithoutOwner(owner, users));
        CleanIdsTwice(groups);
        CleanTwice(roles);
      }
    }
  }

  /** After a successful share of an enabled account its users are exactly the owner, the
      recipients, and the holders of a listed role or members of a listed group; and nobody's
      access to any other account changes. */
  lemma ShareExactness(t: Tables, owner: nat, username: string, password: string, aliases: seq<string>,
                       users: seq<int>, roles: seq<string>, groups: seq<int>, u: nat)
    requires Valid(t) && owner in t.users
    requires ShareLocalAccount(t, owner, username, password, aliases, users, roles, groups).1.Ok?
    ensures var (t', result) := ShareLocalAccount(t, owner, username, password, aliases, users, roles, groups);
      var a := result.value.account;
      && a in t'.accounts
      && (!t'.accounts[a].disabled ==>
            (Allowed(t', u, a) <==>
               || u == owner
               || u in Recipients(owner, users)
               || (exists role :: role in CleanRoles(roles) && HasRole(t, u, role))
               || (exists g :: g in CleanIds(groups) && InGroup(t, u, g))))
      && (forall b: nat :: b != a ==> (Allowed(t', u, b) <==> Allowed(t, u, b)))
  {
    hide Valid, RowOf, CleanIds, CleanRoles, ShareLocalAccount, WithoutOwner, InGroup, HasRole, AllowedByRow, Recipients;
    ShareStep(t, owner, username, password, aliases, users, roles, groups);
    var (t', result) := ShareLocalAccount(t, owner, username, password, aliases, users, roles, groups);
    var a := result.value.account;
    var row := RowOf(t', a);
    AccountInRow(t', a);
    RestrictedRow(t', u, row);
    SameHolders(t, t', u);
    forall b: nat | b != a
      ensures Allowed(t', u, b) <==> Allowed(t, u, b)
    {
      AllowedFrame(t', t, u, RowOf(t, b));
    }
  }

  lemma RestrictedRow(t: Tables, u: nat, row: Row)
    ensures row.account.Some? && row.account.value.restricted && !row.account.value.disabled ==>
      (AllowedByRow(t, u, row) <==>
        row.account.value.owner == Some(u) || u in row.shares || ByRole(t, u, row) || ByGroup(t, u, row))
  {
  }

  lemma SameSharable(t: Tables, t': Tables)
    requires t'.users == t.users
    ensures Sharable(t') == Sharable(t)
  {
  }

  lemma TargetIs(t: Tables, owner: nat, username: string, password: string)
    requires ShareTarget(t, owner, username, password).1.Ok?
    ensures ShareTarget(t, owner, username, password).1.value == AccountFor(t, username)
  {
    hide AccountKey, MakeRestricted, SetEQPassword, ReplaceAccountUsers;
  }

  /** What a refused share leaves behind: nothing when it finds no target, and otherwise one
      row with the recipients before the first bad one; after a bad group, all of them and the
      roles too. */
  lemma RefusedShareStep(t: Tables, owner: nat, username: string, password: string, aliases: seq<string>,
                         users: seq<int>, roles: seq<string>, groups: seq<int>)
    requires Valid(t) && owner in t.users
    ensures var (t', result) := ShareLocalAccount(t, owner, username, password, aliases, users, roles, groups);
      var name := Trim(username);
      result.Err? ==>
        if name == "" || !CanShare(t, owner, name, password) then t' == t
        else
          var a := AccountFor(t, name);
          && (if Elems(Recipients(owner, users)) <= Sharable(t) then result == Err(BadGroup) else result == Err(BadRecipient))
          && OneRow(t, t', a, AccountKey(name))
          && RowOf(t', a) == RowOf(t, a).(
               account := SharedAccount(t, owner, name, password),
               users := {},
               shares := Elems(Accepted(Recipients(owner, users), Sharable(t))),
               aliases := RowOf(t', a).aliases,
               roles := if result == Err(BadGroup) then Elems(CleanRoles(roles)) else RowOf(t, a).roles,
               groups := if result == Err(BadGroup) then Elems(Accepted(CleanIds(groups), t.groups.Keys)) else RowOf(t, a).groups)
  {
    hide Valid, RowOf, Elems, CleanIds, CleanRoles, Accepted, Sharable, ShareTarget, AddAliases, SharesBefore, CanShare, OneRow, AccountFor,
         ReplaceAccountShares, ReplaceAccountRoles, ReplaceAccountGroups, WithoutOwner, NewRecipients, AccountKey;
    var name := Trim(username);
    if name != "" {
      TrimTrims(username);
      TrimOfTrimmed(name);
      ShareTargetStep(t, owner, name, password);
      var (t1, target) := ShareTarget(t, owner, name, password);
      if target.Ok? {
        TargetIs(t, owner, name, password);
        var a, key := AccountFor(t, name), AccountKey(name);
        TargetedRow(t, t1, a, owner, name, password);
        AddAliasesStep(t1, name, aliases, a);
        var t2 := AddAliases(t1, name, aliases, a);
        OneRowThen(t, t1, t2, a, key);
        SameSharable(t, t2);
        SharesStep(t2, a, Recipients(owner, users));
        var t3 := ReplaceAccountShares(t2, a, Recipients(owner, users)).0;
        OneRowThen(t, t2, t3, a, key);
        RolesStep(t3, a, CleanRoles(roles));
        var t4 := ReplaceAccountRoles(t3, a, CleanRoles(roles)).0;
        OneRowThen(t, t3, t4, a, key);
        GroupsStep(t4, a, CleanIds(groups));
        OneRowThen(t, t4, ReplaceAccountGroups(t4, a, CleanIds(groups)).0, a, key);
        CleanIdsTwice(WithoutOwner(owner, users));
        CleanIdsTwice(groups);
        CleanTwice(roles);
      }
    }
  }

  /** A share succeeds exactly when the name is given, its target can be written, every
      recipient is a stored user and not revoked, and every group exists. */
  lemma ShareSucceeds(t: Tables, owner: nat, username: string, password: string, aliases: seq<string>,
                      users: seq<int>, roles: seq<string>, groups: seq<int>)
    requires Valid(t) && owner in t.users
    ensures ShareLocalAccount(t, owner, username, password, aliases, users, roles, groups).1.Ok?
      <==> && Trim(username) != "" && CanShare(t, owner, Trim(username), password)
           && Elems(Recipients(owner, users)) <= Sharable(t)
           && Elems(CleanIds(groups)) <= t.groups.Keys
  {
    hide Valid, RowOf, Elems, CleanIds, CleanRoles, Accepted, Sharable, ShareTarget, AddAliases, SharesBefore, CanShare,
         ReplaceAccountShares, ReplaceAccountRoles, ReplaceAccountGroups, WithoutOwner, NewRecipients, AccountKey;
    var name := Trim(username);
    if name != "" {
      TrimTrims(username);
      TrimOfTrimmed(name);
      ShareTargetStep(t, owner, name, password);
      var (t1, target) := ShareTarget(t, owner, name, password);
      if target.Ok? {
        var id := target.value;
        AddAliasesStep(t1, name, aliases, id);
        var t2 := AddAliases(t1, name, aliases, id);
        SameSharable(t, t2);
        SharesStep(t2, id, Recipients(owner, users));
        var t3 := ReplaceAccountShares(t2, id, Recipients(owner, users)).0;
        RolesStep(t3, id, CleanRoles(roles));
        var t4 := ReplaceAccountRoles(t3, id, CleanRoles(roles)).0;
        GroupsStep(t4, id, CleanIds(groups));
        CleanIdsTwice(WithoutOwner(owner, users));
        CleanIdsTwice(groups);
      }
    }
  }

  lemma TargetedRow(t: Tables, t': Tables, a: nat, owner: nat, username: string, password: string)
    requires Targeted(t, t', a, owner, username, password)
    ensures OneRow(t, t', a, AccountKey(username))
  {
    hide Valid, RowOf, AccountKey;
  }

  lemma SameHolders(t: Tables, t': Tables, u: nat)
    requires WorldOf(t') == WorldOf(t)
    ensures forall role :: HasRole(t', u, role) <==> HasRole(t, u, role)
    ensures forall g :: InGroup(t', u, g) <==> InGroup(t, u, g)
  {
  }

  lemma {:induction false} NewRecipientsAre(previous: set<nat>, incoming: seq<nat>)
    ensures forall u :: u in NewRecipients(previous, incoming) <==> u in incoming && u !in previous
  {
    if incoming != [] {
      var last := |incoming| - 1;
      NewRecipientsAre(previous, incoming[..last]);
      assert incoming == incoming[..last] + [incoming[last]];
      assert forall u :: u in incoming <==> u in incoming[..last] || u == incoming[last];
    }
  }

  /** A successful share notifies exactly the users who went from absent to present among the
      account's recipients. */
  lemma NotifiedAreNew(t: Tables, owner: nat, username: string, password: string, aliases: seq<string>,
                       users: seq<int>, roles: seq<string>, groups: seq<int>, u: nat)
    requires Valid(t) && owner in t.users
    requires ShareLocalAccount(t, owner, username, password, aliases, users, roles, groups).1.Ok?
    ensures var (t', result) := ShareLocalAccount(t, owner, username, password, aliases, users, roles, groups);
      var a := result.value.account;
      u in result.value.notified <==> (a, u) in t'.shares && (a, u) !in t.shares
  {
    hide Valid, RowOf, CleanIds, CleanRoles, WithoutOwner, ShareTarget, AddAliases, Recipients,
         ReplaceAccountShares, ReplaceAccountRoles, ReplaceAccountGroups, NewRecipients, SharesBefore, Of, AccountKey;
    ShareStep(t, owner, username, password, aliases, users, roles, groups);
    var (t', result) := ShareLocalAccount(t, owner, username, password, aliases, users, roles, groups);
    var a := result.value.account;
    var name := Trim(username);
    TrimTrims(username);
    TrimOfTrimmed(name);
    ShareTargetStep(t, owner, name, password);
    SharesBeforeAre(t, name, a, ShareTarget(t, owner, name, password).1, owner, password);
    NewRecipientsAre(SharesBefore(t, name), Recipients(owner, users));
    InOf(t.shares, a, u);
    InOf(t'.shares, a, u);
    SharesInRow(t', a);
  }

  lemma SharesInRow(t: Tables, a: nat)
    ensures RowOf(t, a).shares == Of(t.shares, a)
  {
  }

  lemma SharesBeforeAre(t: Tables, name: string, a: nat, target: Result<nat, ShareError>, owner: nat, password: string)
    requires Valid(t) && target == ShareTarget(t, owner, name, password).1 && target == Ok(a)
    requires Trim(name) == name && name != ""
    ensures SharesBefore(t, name) == Of(t.shares, a)
  {
    hide Of, AccountKey;
    if FindAccount(t, name).None? {
      BareRow(t, t.nextAccount);
    }
  }
}
