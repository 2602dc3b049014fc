// No backup gives an account a blank password.
module BackupPasswords {
  import opened AccessGrants
  import opened BackupExport
  import opened BackupOps
  import opened Roles
  import opened StoreOps
  import opened StoreRuns
  import opened Tables
  import opened Text

  /** Every password is the one the account had, or is not blank. */
  ghost predicate NoneBlanked(before: map<nat, Account>, after: map<nat, Account>) {
    forall a :: a in after ==> Trim(after[a].password) != "" || (a in before && after[a].password == before[a].password)
  }

  lemma NoneBlankedThen(first: map<nat, Account>, second: map<nat, Account>, third: map<nat, Account>)
    requires NoneBlanked(first, second) && NoneBlanked(second, third)
    ensures NoneBlanked(first, third)
  {
    hide Trim;
  }

  lemma GrantsKeepAccounts(t: Tables, a: nat, roles: seq<string>, users: seq<int>, groups: seq<int>)
    ensures SetAccountAccess(t, a, roles, users, groups).0.accounts == t.accounts
  {
    hide ReplaceAccountRoles, ReplaceAccountUsers, ReplaceAccountGroups;
    var t1 := ReplaceAccountRoles(t, a, roles).0;
    RolesAlone(t, a, roles);
    UsersAlone(t1, a, users);
    GroupsAlone(ReplaceAccountUsers(t1, a, users).0, a, groups);
  }

  lemma {:induction false} AliasesKeepAccounts(t: Tables, username: string, aliases: seq<string>, a: nat)
    ensures AddAliases(t, username, aliases, a).accounts == t.accounts
    decreases |aliases|
  {
    hide AddName, Trim, EqualFold;
    if aliases != [] {
      AliasesKeepAccounts(t, username, aliases[..|aliases| - 1], a);
    }
  }

  lemma AddedPassword(t: Tables, username: string, password: string)
    requires Trim(password) != ""
    ensures NoneBlanked(t.accounts, AddEQAccount(t, username, password).0.accounts)
  {
    hide Trim, AccountKey;
  }

  lemma SetPasswords(t: Tables, a: nat, password: string)
    requires Trim(password) != ""
    ensures NoneBlanked(t.accounts, SetEQPassword(t, a, password).accounts)
  {
    hide Trim;
  }

  lemma FlagsKeepPasswords(t: Tables, a: nat, disabled: bool, owner: nat)
    ensures NoneBlanked(t.accounts, SetEQDisabled(t, a, disabled).accounts)
    ensures NoneBlanked(t.accounts, MakeRestricted(t, a, owner).accounts)
  {
    hide Trim;
  }

  lemma SamePasswords(t: Tables)
    ensures NoneBlanked(t.accounts, t.accounts)
  {
    hide Trim;
  }

  lemma TargetPassword(t: Tables, owner: nat, username: string, password: string)
    ensures NoneBlanked(t.accounts, ShareTarget(t, owner, username, password).0.accounts)
  {
    hide NoneBlanked, Trim, FindAccount, AddEQAccount, SetEQPassword, MakeRestricted, ReplaceAccountUsers;
    SamePasswords(t);
    match FindAccount(t, username)
    case Some(id) =>
      var t1 := if Trim(password) != "" then SetEQPassword(t, id, password) else t;
      if Trim(password) != "" {
        SetPasswords(t, id, password);
      }
      FlagsKeepPasswords(t1, id, false, owner);
      NoneBlankedThen(t.accounts, t1.accounts, MakeRestricted(t1, id, owner).accounts);
      UsersAlone(MakeRestricted(t1, id, owner), id, []);
    case None =>
      if Trim(password) != "" {
        AddedPassword(t, username, password);
        var (t1, added) := AddEQAccount(t, username, password);
        if added.Some? {
          FlagsKeepPasswords(t1, added.value, false, owner);
          NoneBlankedThen(t.accounts, t1.accounts, MakeRestricted(t1, added.value, owner).accounts);
        }
      }
  }

  lemma SharePassword(t: Tables, owner: nat, username: string, password: string, aliases: seq<string>,
                      users: seq<int>, roles: seq<string>, groups: seq<int>)
    ensures NoneBlanked(t.accounts, ShareLocalAccount(t, owner, username, password, aliases, users, roles, groups).0.accounts)
  {
    hide NoneBlanked, Trim, ShareTarget, AddAliases, CleanIds, CleanRoles, NewRecipients, SharesBefore, Recipients,
         ReplaceAccountShares, ReplaceAccountRoles, ReplaceAccountGroups;
    SamePasswords(t);
    TargetPassword(t, owner, Trim(username), password);
    var (t1, target) := ShareTarget(t, owner, Trim(username), password);
    if target.Ok? {
      var a := target.value;
      AliasesKeepAccounts(t1, Trim(username), aliases, a);
      var t2 := AddAliases(t1, Trim(username), aliases, a);
      SharesAlone(t2, a, Recipients(owner, users));
      var t3 := ReplaceAccountShares(t2, a, Recipients(owner, users)).0;
      RolesAlone(t3, a, CleanRoles(roles));
      GroupsAlone(ReplaceAccountRoles(t3, a, CleanRoles(roles)).0, a, CleanIds(groups));
    }
  }

  lemma PlacedPassword(t: Tables, dir: map<string, nat>, username: string, row: AccountRow)
    ensures NoneBlanked(t.accounts, PlaceShare(t, dir, username, row).0.accounts)
    ensures NoneBlanked(t.accounts, PlaceOpen(t, dir, username, row).0.accounts)
  {
    hide NoneBlanked, Trim, ShareLocalAccount, PlaceNamed, SetEQDisabled, SetAccountAccess, Lookup, FindAccount;
    SamePasswords(t);
    if Trim(row.ownerId) in dir {
      SharePassword(t, dir[Trim(row.ownerId)], username, row.password, row.aliases, Lookup(dir, row.sharedIds), row.roles, []);
    }
    NamedPassword(t, username, row);
    var (t1, id) := PlaceNamed(t, username, row);
    if id.Some? {
      FlagsKeepPasswords(t1, id.value, row.disabled, 0);
      NoneBlankedThen(t.accounts, t1.accounts, SetEQDisabled(t1, id.value, row.disabled).accounts);
      GrantsKeepAccounts(SetEQDisabled(t1, id.value, row.disabled), id.value, row.roles, Lookup(dir, row.userIds), []);
    }
  }

  lemma NamedPassword(t: Tables, username: string, row: AccountRow)
    ensures NoneBlanked(t.accounts, PlaceNamed(t, username, row).0.accounts)
  {
    hide NoneBlanked, Trim, FindAccount, AddEQAccount, SetEQPassword;
    SamePasswords(t);
    if Trim(row.password) != "" {
      AddedPassword(t, username, row.password);
      if FindAccount(t, username).Some? {
        SetPasswords(t, FindAccount(t, username).value, row.password);
      }
    }
  }

  lemma RowPassword(t: Tables, dir: map<string, nat>, row: AccountRow)
    ensures NoneBlanked(t.accounts, ImportAccount(t, dir, row).accounts)
  {
    hide Trim, PlaceShare, PlaceOpen, AddNames, AddTags, AliasesKept, NamesNotOf, TagsNotOf;
    PlacedPassword(t, dir, Trim(row.username), row);
  }

  lemma {:induction false} RowsPassword(t: Tables, dir: map<string, nat>, rows: seq<AccountRow>)
    ensures NoneBlanked(t.accounts, ImportAccounts(t, dir, rows).accounts)
    decreases |rows|
  {
    hide ImportAccount, Trim;
    if rows != [] {
      var before := ImportAccounts(t, dir, rows[..|rows| - 1]);
      RowsPassword(t, dir, rows[..|rows| - 1]);
      RowPassword(before, dir, rows[|rows| - 1]);
      NoneBlankedThen(t.accounts, before.accounts, ImportAccount(before, dir, rows[|rows| - 1]).accounts);
    }
  }

  lemma UserKeepsAccounts(t: Tables, row: UserRow)
    ensures ImportUser(t, row).accounts == t.accounts
  {
    hide Trim, UpsertUser, SetUserRoles, SetUserAccessRevoked;
    UpsertKeepsAccounts(t, Trim(row.discordId), row);
    var (t1, u) := UpsertUser(t, Trim(row.discordId), row.displayName, row.roles);
    UserFlagsKeepAccounts(t1, u, row);
    UserFlagsKeepAccounts(SetUserRoles(t1, u, row.roles), u, row);
  }

  lemma UpsertKeepsAccounts(t: Tables, id: string, row: UserRow)
    ensures UpsertUser(t, id, row.displayName, row.roles).0.accounts == t.accounts
  {
  }

  lemma UserFlagsKeepAccounts(t: Tables, u: nat, row: UserRow)
    ensures SetUserRoles(t, u, row.roles).accounts == t.accounts
    ensures SetUserAccessRevoked(t, u, row.revoked).0.accounts == t.accounts
  {
    hide CleanRoles;
  }

  lemma {:induction false} UsersKeepAccounts(t: Tables, rows: seq<UserRow>)
    ensures ImportUsers(t, rows).accounts == t.accounts
    decreases |rows|
  {
    hide ImportUser;
    if rows != [] {
      UsersKeepAccounts(t, rows[..|rows| - 1]);
      UserKeepsAccounts(ImportUsers(t, rows[..|rows| - 1]), rows[|rows| - 1]);
    }
  }

  lemma CreateKeepsAccounts(t: Tables, name: string, row: GroupRow)
    ensures CreateGroup(t, name, row.description, row.webRole, row.commands).0.accounts == t.accounts
  {
    hide Trim, IsDefaultGroupName, FindGroup, NormalizeWebRole, NormalizeCommands, NameTaken;
  }

  lemma UpdateKeepsAccounts(t: Tables, g: nat, name: string, row: GroupRow)
    ensures UpdateGroupMeta(t, g, name, row.description, row.webRole, row.commands).0.accounts == t.accounts
  {
    hide Trim, IsDefaultGroupName, IsDefaultGroup, NormalizeWebRole, NormalizeCommands, NameTaken;
  }

  lemma GroupKeepsAccounts(t: Grouped, dir: map<string, nat>, row: GroupRow)
    ensures ImportGroup(t, dir, row).tables.accounts == t.tables.accounts
  {
    hide Trim, FindGroup, CreateGroup, UpdateGroupMeta, ReplaceGroupMembership, ReplaceGroupAccountLinks, Lookup, LookupAccounts, Lower;
    var name := Trim(row.name);
    CreateKeepsAccounts(t.tables, name, row);
    if FindGroup(t.tables, name).Some? {
      UpdateKeepsAccounts(t.tables, FindGroup(t.tables, name).value, name, row);
    }
    var (t1, g) := PlaceGroup(t.tables, name, row);
    if g.Some? {
      SetMembersAside(t1, g.value, Lookup(dir, row.memberIds), row.memberRoles);
      var t2 := ReplaceGroupMembership(t1, g.value, Lookup(dir, row.memberIds), row.memberRoles).0;
      SetLinksAside(t2, g.value, LookupAccounts(t2, row.usernames));
    }
  }

  lemma {:induction false} GroupsKeepAccounts(t: Tables, dir: map<string, nat>, rows: seq<GroupRow>)
    ensures ImportGroups(t, dir, rows).tables.accounts == t.accounts
    decreases |rows|
  {
    hide ImportGroup;
    if rows != [] {
      GroupsKeepAccounts(t, dir, rows[..|rows| - 1]);
      GroupKeepsAccounts(ImportGroups(t, dir, rows[..|rows| - 1]), dir, rows[|rows| - 1]);
    }
  }

  lemma {:induction false} GrantRowsKeepAccounts(t: Tables, dir: map<string, nat>, ids: map<string, nat>, rows: seq<AccountRow>)
    ensures ImportGrants(t, dir, ids, rows).accounts == t.accounts
    decreases |rows|
  {
    hide SetAccountAccess, FindAccount, Lookup, LookupGroups;
    if rows != [] {
      var row := rows[|rows| - 1];
      GrantRowsKeepAccounts(t, dir, ids, rows[..|rows| - 1]);
      var before := ImportGrants(t, dir, ids, rows[..|rows| - 1]);
      if FindAccount(before, row.username).Some? {
        var a := FindAccount(before, row.username).value;
        GrantsKeepAccounts(before, a, row.roles, Lookup(dir, row.userIds), LookupGroups(ids, row.groupNames));
      }
    }
  }

  /** Whatever a backup says, importing it makes no account with a blank password, and blanks
      none. */
  lemma ImportedPasswords(t: Tables, bak: Backup)
    ensures var t' := Import(t, bak);
      forall a :: a in t'.accounts ==>
        Trim(t'.accounts[a].password) != "" || (a in t.accounts && t'.accounts[a].password == t.accounts[a].password)
  {
    hide ImportUsers, ImportAccounts, ImportGroups, ImportGrants, Directory, Trim;
    var t1 := ImportUsers(t, bak.users);
    var t2 := ImportAccounts(t1, Directory(t1), bak.accounts);
    var grouped := ImportGroups(t2, Directory(t1), bak.groups);
    UsersKeepAccounts(t, bak.users);
    RowsPassword(t1, Directory(t1), bak.accounts);
    GroupsKeepAccounts(t2, Directory(t1), bak.groups);
    GrantRowsKeepAccounts(grouped.tables, Directory(t1), grouped.ids, bak.accounts);
  }

  /** An export without passwords holds none, and one with passwords holds each account's own. */
  lemma ExportedPasswords(s: Tables, withPasswords: bool, bak: Backup, index: Index)
    requires Exports(s, withPasswords, bak, index)
    ensures forall row :: row in bak.accounts ==>
      if withPasswords then exists a :: a in s.accounts && row.username == s.accounts[a].username && row.password == s.accounts[a].password
      else row.password == ""
  {
    hide Of, NamesOf, TagsOf, DiscordIds, NamesOfGroups, OtherNames, ExportsUser, ExportsGroup, Listed, Lists;
    forall row | row in bak.accounts
      ensures if withPasswords then exists a :: a in s.accounts && row.username == s.accounts[a].username && row.password == s.accounts[a].password
              else row.password == ""
    {
      var i :| 0 <= i < |bak.accounts| && bak.accounts[i] == row;
      assert ExportsAccount(s, withPasswords, index.accounts[i], bak.accounts[i]);
    }
  }
}
