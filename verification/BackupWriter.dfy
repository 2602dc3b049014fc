// The export: listings in any order, turned into rows.
module BackupWriters {
  import opened BackupExport
  import opened BackupOps
  import opened StoreLoops
  import opened StoreOps
  import opened Stores
  import opened Tables
  import opened Text

  /** A listing query: each row once, in some order. */
  method Listing<T(==)>(values: set<T>) returns (xs: seq<T>)
    ensures Lists(xs, values)
  {
    xs := [];
    var rest := values;
    while rest != {}
      invariant rest <= values && Elems(xs) == values - rest
      invariant forall i, j :: 0 <= i < j < |xs| ==> xs[i] != xs[j]
      decreases |rest|
    {
      var x :| x in rest;
      assert x !in Elems(xs);
      ElemsAppend(xs, x);
      xs := xs + [x];
      rest := rest - {x};
    }
  }

  /** Discord ids of the listed users. */
  method DiscordIdsOf(store: Store, us: seq<nat>) returns (out: seq<string>)
    ensures Elems(out) == DiscordIds(store.Contents(), Elems(us))
  {
    out := [];
    for i := 0 to |us|
      invariant Elems(out) == DiscordIds(store.Contents(), Elems(us[..i]))
    {
      assert us[..i + 1] == us[..i] + [us[i]];
      ElemsAppend(us[..i], us[i]);
      if us[i] in store.users && store.users[us[i]].discordId != "" {
        ElemsAppend(out, store.users[us[i]].discordId);
        out := out + [store.users[us[i]].discordId];
      }
    }
    assert us[..|us|] == us;
  }

  method GroupNamesOf(store: Store, gs: seq<nat>) returns (out: seq<string>)
    ensures Elems(out) == NamesOfGroups(store.Contents(), Elems(gs))
  {
    out := [];
    for i := 0 to |gs|
      invariant Elems(out) == NamesOfGroups(store.Contents(), Elems(gs[..i]))
    {
      assert gs[..i + 1] == gs[..i] + [gs[i]];
      ElemsAppend(gs[..i], gs[i]);
      if gs[i] in store.groups {
        ElemsAppend(out, store.groups[gs[i]].name);
        out := out + [store.groups[gs[i]].name];
      }
    }
    assert gs[..|gs|] == gs;
  }

  method UsernamesOf(store: Store, accountIds: seq<nat>) returns (out: seq<string>)
    ensures Elems(out) == Usernames(store.Contents(), Elems(accountIds))
  {
    out := [];
    for i := 0 to |accountIds|
      invariant Elems(out) == Usernames(store.Contents(), Elems(accountIds[..i]))
    {
      assert accountIds[..i + 1] == accountIds[..i] + [accountIds[i]];
      ElemsAppend(accountIds[..i], accountIds[i]);
      if accountIds[i] in store.accounts && store.accounts[accountIds[i]].username != "" {
        ElemsAppend(out, store.accounts[accountIds[i]].username);
        out := out + [store.accounts[accountIds[i]].username];
      }
    }
    assert accountIds[..|accountIds|] == accountIds;
  }

  /** Aliases without blanks and without the username. */
  method OtherNamesOf(aliases: seq<string>, username: string) returns (out: seq<string>)
    requires forall i :: 0 <= i < |aliases| ==> IsTrimmed(aliases[i])
    requires forall i, j :: 0 <= i < j < |aliases| ==> aliases[i] != aliases[j]
    ensures Lists(out, OtherNames(Elems(aliases), username))
  {
    hide IsTrimmed, EqualFold, Trim;
    out := [];
    for i := 0 to |aliases|
      invariant Lists(out, OtherNames(Elems(aliases[..i]), username))
    {
      assert aliases[..i + 1] == aliases[..i] + [aliases[i]];
      ElemsAppend(aliases[..i], aliases[i]);
      TrimOfTrimmed(aliases[i]);
      var al := Trim(aliases[i]);
      if al == "" || EqualFold(al, username) {
        continue;
      }
      assert al !in Elems(aliases[..i]);
      assert al !in Elems(out);
      ElemsAppend(out, al);
      out := out + [al];
    }
    assert aliases[..|aliases|] == aliases;
  }

  /** The row is the account's once its group names are filled in. */
  ghost predicate ExportsButGroups(s: Tables, withPasswords: bool, a: nat, row: AccountRow) {
    forall names :: Elems(names) == NamesOfGroups(s, Of(s.links, a)) ==> ExportsAccount(s, withPasswords, a, row.(groupNames := names))
  }

  method AccountRowOf(store: Store, withPasswords: bool, a: nat) returns (row: AccountRow)
    requires NamesFiled(store.aliases) && a in store.accounts
    ensures ExportsButGroups(store.Contents(), withPasswords, a, row) && row.username == store.accounts[a].username
  {
    hide Of, NamesOf, TagsOf, DiscordIds, NamesOfGroups, Usernames, OtherNames, Lists, IsTrimmed;
    var account := store.accounts[a];
    var names := Listing(NamesOf(store.aliases, a));
    ListedNames(store.aliases, a, names);
    var aliases := OtherNamesOf(names, account.username);
    var grantees := Listing(Of(store.accessUsers, a));
    ListsElems(grantees, Of(store.accessUsers, a));
    var userIds := DiscordIdsOf(store, grantees);
    var recipients := Listing(if account.restricted then Of(store.shares, a) else {});
    ListsElems(recipients, if account.restricted then Of(store.shares, a) else {});
    var sharedIds := DiscordIdsOf(store, recipients);
    var roles := Listing(Of(store.accessRoles, a));
    var tags := Listing(TagsOf(store.tags, a));
    var characters := Listing(NamesOf(store.characters, a));
    var ownerId := "";
    if account.owner.Some? && account.owner.value in store.users {
      ownerId := store.users[account.owner.value].discordId;
    }
    row := AccountRow(account.username, if withPasswords then account.password else "", account.disabled, account.restricted,
                      ownerId, sharedIds, roles, userIds, [], aliases, tags, characters);
  }

  lemma ListsElems<T>(xs: seq<T>, values: set<T>)
    requires Lists(xs, values)
    ensures Elems(xs) == values
  {
  }

  lemma ListedNames(names: map<string, Named>, a: nat, xs: seq<string>)
    requires NamesFiled(names) && Lists(xs, NamesOf(names, a))
    ensures Elems(xs) == NamesOf(names, a)
    ensures forall i :: 0 <= i < |xs| ==> IsTrimmed(xs[i])
    ensures forall i, j :: 0 <= i < j < |xs| ==> xs[i] != xs[j]
  {
    forall i | 0 <= i < |xs|
      ensures IsTrimmed(xs[i])
    {
      assert xs[i] in Elems(xs);
      InNamesOf(names, a, xs[i]);
    }
  }

  method GroupRowOf(store: Store, g: nat) returns (row: GroupRow)
    requires g in store.groups
    ensures ExportsGroup(store.Contents(), g, row)
  {
    hide Of, Having, DiscordIds, Usernames, Lists;
    var group := store.groups[g];
    var members := Listing(Of(store.memberUsers, g));
    ListsElems(members, Of(store.memberUsers, g));
    var memberIds := DiscordIdsOf(store, members);
    var roles := Listing(Of(store.memberRoles, g));
    var linked := Listing(Having(store.links, g));
    ListsElems(linked, Having(store.links, g));
    var usernames := UsernamesOf(store, linked);
    var commands := Listing(group.commands);
    ListsElems(commands, group.commands);
    row := GroupRow(group.name, group.description, group.webRole, commands, memberIds, roles, usernames);
  }

  // ----- Group names are filled in by matching usernames -----

  lemma {:induction false} LowerTrimLeft(s: string)
    ensures TrimLeft(Lower(s)) == Lower(TrimLeft(s))
  {
    if s != [] && IsSpace(s[0]) {
      assert Lower(s)[1..] == Lower(s[1..]);
      LowerTrimLeft(s[1..]);
    }
  }

  lemma {:induction false} LowerTrimRight(s: string)
    ensures TrimRight(Lower(s)) == Lower(TrimRight(s))
  {
    if s != [] && IsSpace(s[|s| - 1]) {
      assert Lower(s)[..|s| - 1] == Lower(s[..|s| - 1]);
      LowerTrimRight(s[..|s| - 1]);
    }
  }

  lemma SameFoldSameKey(x: string, y: string)
    requires EqualFold(x, y)
    ensures AccountKey(x) == AccountKey(y)
  {
    LowerTrimLeft(x);
    LowerTrimLeft(y);
    LowerTrimRight(TrimLeft(x));
    LowerTrimRight(TrimLeft(y));
  }

  /** Two accounts whose usernames differ at most in case are the same account. */
  lemma MatchIsSame(t: Tables, a: nat, b: nat)
    requires AccountsIndexed(t.accounts, t.accountIds, t.nextAccount) && a in t.accounts && b in t.accounts
    requires EqualFold(t.accounts[a].username, t.accounts[b].username)
    ensures a == b
  {
    SameFoldSameKey(t.accounts[a].username, t.accounts[b].username);
  }

  lemma AccountsAreIndexed(t: Tables)
    requires Valid(t)
    ensures AccountsIndexed(t.accounts, t.accountIds, t.nextAccount) && NamesFiled(t.aliases)
  {
  }

  /** The group names of the first account whose username matches the row's. */
  method FillGroupNames(store: Store, withPasswords: bool, accountIds: seq<nat>, k: nat, row: AccountRow) returns (filled: AccountRow)
    requires AccountsIndexed(store.accounts, store.accountIds, store.nextAccount)
    requires k < |accountIds| && forall i :: 0 <= i < |accountIds| ==> accountIds[i] in store.accounts
    requires ExportsButGroups(store.Contents(), withPasswords, accountIds[k], row) && row.username == store.accounts[accountIds[k]].username
    ensures ExportsAccount(store.Contents(), withPasswords, accountIds[k], filled)
  {
    hide ExportsAccount, NamesOfGroups, Of, EqualFold, Lists;
    filled := row;
    for j := 0 to |accountIds|
      invariant forall i :: 0 <= i < j ==> !EqualFold(store.accounts[accountIds[i]].username, row.username)
    {
      if !EqualFold(store.accounts[accountIds[j]].username, row.username) {
        continue;
      }
      MatchIsSame(store.Contents(), accountIds[j], accountIds[k]);
      var gs := Listing(Of(store.links, accountIds[j]));
      ListsElems(gs, Of(store.links, accountIds[j]));
      var names := GroupNamesOf(store, gs);
      filled := filled.(groupNames := names);
      return;
    }
    FoldSame(row.username);
    assert false;
  }

  lemma FoldSame(x: string)
    ensures EqualFold(x, x)
  {
  }

  method ExportUsers(store: Store) returns (users: seq<UserRow>, ghost us: seq<nat>)
    ensures Lists(us, Listed(store.Contents())) && |users| == |us|
    ensures forall i :: 0 <= i < |users| ==> ExportsUser(store.Contents(), us[i], users[i])
  {
    hide Lists;
    var listed: set<nat> := set u | u in store.users && store.users[u].discordId != "";
    assert listed == Listed(store.Contents());
    var found: seq<nat> := Listing<nat>(listed);
    ListsElems(found, listed);
    users := [];
    for i := 0 to |found|
      invariant |users| == i && forall k :: 0 <= k < i ==> ExportsUser(store.Contents(), found[k], users[k])
    {
      assert found[i] in Elems(found);
      var u := store.users[found[i]];
      users := users + [UserRow(u.discordId, u.displayName, u.roles, u.revoked)];
    }
    us := found;
  }

  method ExportAccounts(store: Store, withPasswords: bool) returns (rows: seq<AccountRow>, accountIds: seq<nat>)
    requires NamesFiled(store.aliases)
    ensures Lists(accountIds, store.accounts.Keys) && |rows| == |accountIds|
    ensures forall i :: 0 <= i < |accountIds| ==> accountIds[i] in store.accounts
    ensures forall i :: 0 <= i < |rows| ==>
      ExportsButGroups(store.Contents(), withPasswords, accountIds[i], rows[i]) && rows[i].username == store.accounts[accountIds[i]].username
  {
    hide Lists, ExportsButGroups;
    accountIds := Listing<nat>(store.accounts.Keys);
    ListsElems(accountIds, store.accounts.Keys);
    forall i | 0 <= i < |accountIds|
      ensures accountIds[i] in store.accounts
    {
      assert accountIds[i] in Elems(accountIds);
    }
    rows := [];
    for i := 0 to |accountIds|
      invariant |rows| == i
      invariant forall k :: 0 <= k < i ==>
        ExportsButGroups(store.Contents(), withPasswords, accountIds[k], rows[k]) && rows[k].username == store.accounts[accountIds[k]].username
    {
      var row := AccountRowOf(store, withPasswords, accountIds[i]);
      rows := rows + [row];
    }
  }

  method ExportGroups(store: Store) returns (groups: seq<GroupRow>, ghost gs: seq<nat>)
    ensures Lists(gs, store.groups.Keys) && |groups| == |gs|
    ensures forall i :: 0 <= i < |groups| ==> ExportsGroup(store.Contents(), gs[i], groups[i])
  {
    hide Lists, ExportsGroup;
    var found: seq<nat> := Listing<nat>(store.groups.Keys);
    ListsElems(found, store.groups.Keys);
    groups := [];
    for i := 0 to |found|
      invariant |groups| == i && forall k :: 0 <= k < i ==> ExportsGroup(store.Contents(), found[k], groups[k])
    {
      assert found[i] in Elems(found);
      var row := GroupRowOf(store, found[i]);
      groups := groups + [row];
    }
    gs := found;
  }

  /** The rows, in some order, are those of the store. */
  method ExportConfigBackup(store: Store, withPasswords: bool) returns (bak: Backup)
    requires Valid(store.Contents())
    ensures exists index :: Exports(store.Contents(), withPasswords, bak, index)
  {
    hide Valid, ExportsUser, ExportsAccount, ExportsGroup, ExportsButGroups, Lists, AccountsIndexed;
    AccountsAreIndexed(store.Contents());
    ghost var us, gs;
    var users, groups, accountIds, rows;
    users, us := ExportUsers(store);
    rows, accountIds := ExportAccounts(store, withPasswords);
    var accounts := [];
    for i := 0 to |rows|
      invariant |accounts| == i && forall k :: 0 <= k < i ==> ExportsAccount(store.Contents(), withPasswords, accountIds[k], accounts[k])
    {
      var row := FillGroupNames(store, withPasswords, accountIds, i, rows[i]);
      accounts := accounts + [row];
    }
    groups, gs := ExportGroups(store);
    bak := Backup(users, groups, accounts);
    assert Exports(store.Contents(), withPasswords, bak, Index(us, accountIds, gs));
  }
}
