// Whatever a backup says, importing it keeps the store sound: the indexes and references hold,
// at most one group is named Default, and a locked default group stays locked.
module BackupSound {
  import opened BackupAccounts
  import opened BackupOps
  import opened DefaultGroup
  import opened StoreOps
  import opened StoreRuns
  import opened StoreSound
  import opened StoreTidy
  import opened Tables
  import opened Text
  import opened Wrappers

  lemma ImportUserSound(t: Tables, row: UserRow)
    requires Sound(t)
    ensures StaysSound(t, ImportUser(t, row))
  {
    hide Sound, LockedAt, UpsertUser, SetUserRoles, SetUserAccessRevoked, Trim;
    var id := Trim(row.discordId);
    if id == "" {
      return;
    }
    var (t1, u) := UpsertUser(t, id, row.displayName, row.roles);
    StepKeeps(t, OnUsers(Upsert(id, row.displayName, row.roles)));
    StepKeeps(t1, OnUsers(SetRoles(u, row.roles)));
    StepKeeps(SetUserRoles(t1, u, row.roles), OnUsers(SetRevoked(u, row.revoked)));
  }

  // ----- Accounts: nothing but accounts changes -----

  /** Valid, with the same users and groups, and with tidy rows if they were. */
  ghost predicate SameWorld(t: Tables, t': Tables) {
    Valid(t') && WorldOf(t') == WorldOf(t) && (RowsTidy(t) ==> RowsTidy(t'))
  }

  lemma NamesTidy(t: Tables, t': Tables)
    requires t'.accounts == t.accounts && t'.accessRoles == t.accessRoles && t'.shares == t.shares
    ensures RowsTidy(t) ==> RowsTidy(t')
  {
    hide RowsTidy;
    if RowsTidy(t) {
      SameTidyRows(t, t');
    }
  }

  lemma PlacedTidy(t: Tables, dir: map<string, nat>, username: string, row: AccountRow)
    requires Valid(t) && RowsTidy(t) && DirectoryOf(dir, t)
    ensures RowsTidy((if row.restricted then PlaceShare(t, dir, username, row) else PlaceOpen(t, dir, username, row)).0)
  {
    hide Valid, RowsTidy, Trim, ShareLocalAccount, SetAccountAccess, AddEQAccount, SetEQPassword, SetEQDisabled, Lookup, FindAccount;
    if row.restricted {
      var ownerId := Trim(row.ownerId);
      if ownerId in dir {
        ShareTidy(t, dir[ownerId], username, row.password, row.aliases, Lookup(dir, row.sharedIds), row.roles, []);
      }
    } else {
      AddAccountTidy(t, username, row.password);
      AddAccountValid(t, username, row.password);
      if FindAccount(t, username).Some? {
        PasswordTidy(t, FindAccount(t, username).value, row.password);
        PasswordValid(t, FindAccount(t, username).value, row.password);
      }
      var (t1, id) := PlaceNamed(t, username, row);
      if id.Some? {
        DisabledTidy(t1, id.value, row.disabled);
        AccessTidy(SetEQDisabled(t1, id.value, row.disabled), id.value, row.roles, Lookup(dir, row.userIds), []);
      }
    }
  }

  lemma PlacedSound(t: Tables, dir: map<string, nat>, username: string, row: AccountRow)
    requires Valid(t) && DirectoryOf(dir, t)
    ensures SameWorld(t, (if row.restricted then PlaceShare(t, dir, username, row) else PlaceOpen(t, dir, username, row)).0)
  {
    hide Valid, RowsTidy, Trim, ShareLocalAccount, SetAccountAccess, AddEQAccount, SetEQPassword, SetEQDisabled, Lookup, FindAccount;
    if RowsTidy(t) {
      PlacedTidy(t, dir, username, row);
    }
    if row.restricted {
      var ownerId := Trim(row.ownerId);
      if ownerId in dir {
        ShareValid(t, dir[ownerId], username, row.password, row.aliases, Lookup(dir, row.sharedIds), row.roles, []);
      }
    } else {
      AddAccountValid(t, username, row.password);
      if FindAccount(t, username).Some? {
        PasswordValid(t, FindAccount(t, username).value, row.password);
      }
      var (t1, id) := PlaceNamed(t, username, row);
      if id.Some? {
        DisabledValid(t1, id.value, row.disabled);
        AccessStepsValid(SetEQDisabled(t1, id.value, row.disabled), id.value, row.roles, Lookup(dir, row.userIds), []);
      }
    }
  }

  lemma {:induction false} AddNamesFiled(names: map<string, Named>, texts: seq<string>, a: nat, known: bool, username: Option<string>, ids: set<nat>)
    requires NamesFiled(names) && NamesRefer(names, ids) && (known ==> a in ids)
    ensures var names' := AddNames(names, texts, a, known, username).0;
      NamesFiled(names') && NamesRefer(names', ids)
  {
    hide NamesFiled, NamesRefer, Trim, EqualFold, AddName;
    if texts != [] {
      var last := |texts| - 1;
      AddNamesFiled(names, texts[..last], a, known, username, ids);
      var before := AddNames(names, texts[..last], a, known, username).0;
      AddNameFiled(before, Trim(texts[last]), a, known, ids);
    }
  }

  lemma {:induction false} AddTagsFiled(tags: map<(string, nat), string>, texts: seq<string>, a: nat, known: bool, ids: set<nat>)
    requires TagsFiled(tags) && TagsRefer(tags, ids) && (known ==> a in ids)
    ensures var tags' := AddTags(tags, texts, a, known).0;
      TagsFiled(tags') && TagsRefer(tags', ids)
  {
    hide TagsFiled, TagsRefer, AddTagTo;
    if texts != [] {
      var last := |texts| - 1;
      AddTagsFiled(tags, texts[..last], a, known, ids);
      AddTagFiled(AddTags(tags, texts[..last], a, known).0, texts[last], a, known, ids);
    }
  }

  lemma NamesReplaced(t: Tables, a: nat, username: string, aliases: seq<string>)
    requires Valid(t)
    ensures SameWorld(t, ReplaceAliases(t, a, username, aliases))
  {
    hide RowsTidy;
    NamesTidy(t, ReplaceAliases(t, a, username, aliases));
    hide UsersIndexed, AccountsIndexed, OwnersIn, GroupsNumbered, KeysIn, ValuesIn, TagsFiled, TagsRefer, AddNames;
    KeptFiled(t.aliases, a, username, t.accounts.Keys);
    var kept := if a in t.accounts then AliasesKept(t.aliases, a, username) else t.aliases;
    AddNamesFiled(kept, aliases, a, a in t.accounts, Some(username), t.accounts.Keys);
  }

  lemma KeptFiled(names: map<string, Named>, a: nat, username: string, ids: set<nat>)
    requires NamesFiled(names) && NamesRefer(names, ids)
    ensures NamesFiled(AliasesKept(names, a, username)) && NamesRefer(AliasesKept(names, a, username), ids)
    ensures NamesFiled(NamesNotOf(names, a)) && NamesRefer(NamesNotOf(names, a), ids)
  {
  }

  lemma CharactersReplaced(t: Tables, a: nat, characters: seq<string>)
    requires Valid(t)
    ensures SameWorld(t, ReplaceCharacters(t, a, characters))
  {
    hide RowsTidy;
    NamesTidy(t, ReplaceCharacters(t, a, characters));
    hide UsersIndexed, AccountsIndexed, OwnersIn, GroupsNumbered, KeysIn, ValuesIn, TagsFiled, TagsRefer, AddNames;
    KeptFiled(t.characters, a, "", t.accounts.Keys);
    var kept := if a in t.accounts then NamesNotOf(t.characters, a) else t.characters;
    AddNamesFiled(kept, characters, a, a in t.accounts, None, t.accounts.Keys);
  }

  lemma TagsReplaced(t: Tables, a: nat, tags: seq<string>)
    requires Valid(t)
    ensures SameWorld(t, ReplaceTags(t, a, tags))
  {
    hide RowsTidy;
    NamesTidy(t, ReplaceTags(t, a, tags));
    hide UsersIndexed, AccountsIndexed, OwnersIn, GroupsNumbered, KeysIn, ValuesIn, NamesFiled, NamesRefer, AddTags;
    TagsKept(t.tags, a, t.accounts.Keys);
    var kept := if a in t.accounts then TagsNotOf(t.tags, a) else t.tags;
    AddTagsFiled(kept, tags, a, a in t.accounts, t.accounts.Keys);
  }

  lemma TagsKept(tags: map<(string, nat), string>, a: nat, ids: set<nat>)
    requires TagsFiled(tags) && TagsRefer(tags, ids)
    ensures TagsFiled(TagsNotOf(tags, a)) && TagsRefer(TagsNotOf(tags, a), ids)
  {
  }

  lemma ImportAccountSound(t: Tables, dir: map<string, nat>, row: AccountRow)
    requires Valid(t) && DirectoryOf(dir, t)
    ensures SameWorld(t, ImportAccount(t, dir, row))
  {
    hide Valid, RowsTidy, Trim, PlaceShare, PlaceOpen, ReplaceAliases, ReplaceTags, ReplaceCharacters;
    var username := Trim(row.username);
    if username != "" {
      PlacedSound(t, dir, username, row);
      var (t1, id) := if row.restricted then PlaceShare(t, dir, username, row) else PlaceOpen(t, dir, username, row);
      if id.Some? {
        NamesReplaced(t1, id.value, username, row.aliases);
        var t2 := ReplaceAliases(t1, id.value, username, row.aliases);
        TagsReplaced(t2, id.value, row.tags);
        CharactersReplaced(ReplaceTags(t2, id.value, row.tags), id.value, row.characters);
      }
    }
  }

  // ----- Groups -----

  lemma CreateSound(t: Tables, name: string, row: GroupRow)
    requires Sound(t)
    ensures StaysSound(t, CreateGroup(t, name, row.description, row.webRole, row.commands).0)
  {
    hide Sound, LockedAt, CreateGroup;
    GroupStepKeeps(t, Create(name, row.description, row.webRole, row.commands));
  }

  lemma UpdateSound(t: Tables, g: nat, name: string, row: GroupRow)
    requires Sound(t)
    ensures StaysSound(t, UpdateGroupMeta(t, g, name, row.description, row.webRole, row.commands).0)
  {
    hide Sound, LockedAt, UpdateGroupMeta;
    GroupStepKeeps(t, Update(g, name, row.description, row.webRole, row.commands));
  }

  lemma PlaceGroupSound(t: Tables, name: string, row: GroupRow)
    requires Sound(t)
    ensures StaysSound(t, PlaceGroup(t, name, row).0)
  {
    hide Sound, LockedAt, FindGroup, CreateGroup, UpdateGroupMeta;
    match FindGroup(t, name)
    case None => CreateSound(t, name, row);
    case Some(g) => UpdateSound(t, g, name, row);
  }

  lemma MembersSound(t: Tables, g: nat, users: seq<int>, roles: seq<string>)
    requires Sound(t)
    ensures StaysSound(t, ReplaceGroupMembership(t, g, users, roles).0)
  {
    hide Valid, WellNamed, ReplaceGroupMembership, StaysSound, RowsTidy, RolesTidy, GroupsTidy;
    MembershipValid(t, g, users, roles);
    MembershipTidy(t, g, users, roles);
    SetMembersAside(t, g, users, roles);
    NamesTidy(t, ReplaceGroupMembership(t, g, users, roles).0);
    SameGroupsSound(t, ReplaceGroupMembership(t, g, users, roles).0);
  }

  lemma LinksSound(t: Tables, g: nat, accounts: seq<int>)
    requires Sound(t)
    ensures StaysSound(t, ReplaceGroupAccountLinks(t, g, accounts).0)
  {
    hide Valid, WellNamed, ReplaceGroupAccountLinks, StaysSound, RowsTidy, RolesTidy, GroupsTidy;
    LinksValid(t, g, accounts);
    SetLinksAside(t, g, accounts);
    NamesTidy(t, ReplaceGroupAccountLinks(t, g, accounts).0);
    SameGroupsSound(t, ReplaceGroupAccountLinks(t, g, accounts).0);
  }

  lemma ImportGroupSound(t: Grouped, dir: map<string, nat>, row: GroupRow)
    requires Sound(t.tables)
    ensures StaysSound(t.tables, ImportGroup(t, dir, row).tables)
  {
    hide Sound, LockedAt, PlaceGroup, ReplaceGroupMembership, ReplaceGroupAccountLinks, Lookup, LookupAccounts, Trim, Lower;
    var name := Trim(row.name);
    PlaceGroupSound(t.tables, name, row);
    var (t1, g) := PlaceGroup(t.tables, name, row);
    if name == "" || g.None? {
      return;
    }
    MembersSound(t1, g.value, Lookup(dir, row.memberIds), row.memberRoles);
    var t2 := ReplaceGroupMembership(t1, g.value, Lookup(dir, row.memberIds), row.memberRoles).0;
    LinksSound(t2, g.value, LookupAccounts(t2, row.usernames));
  }

  // ----- The passes -----

  lemma {:induction false} ImportUsersSound(t: Tables, rows: seq<UserRow>)
    requires Sound(t)
    ensures StaysSound(t, ImportUsers(t, rows))
  {
    hide Sound, LockedAt, ImportUser;
    if rows != [] {
      ImportUsersSound(t, rows[..|rows| - 1]);
      ImportUserSound(ImportUsers(t, rows[..|rows| - 1]), rows[|rows| - 1]);
    }
  }

  lemma {:induction false} ImportAccountsSound(t: Tables, dir: map<string, nat>, rows: seq<AccountRow>)
    requires Valid(t) && DirectoryOf(dir, t)
    ensures SameWorld(t, ImportAccounts(t, dir, rows))
  {
    hide Valid, RowsTidy, ImportAccount;
    if rows != [] {
      ImportAccountsSound(t, dir, rows[..|rows| - 1]);
      ImportAccountSound(ImportAccounts(t, dir, rows[..|rows| - 1]), dir, rows[|rows| - 1]);
    }
  }

  lemma {:induction false} ImportGroupsSound(t: Tables, dir: map<string, nat>, rows: seq<GroupRow>)
    requires Sound(t)
    ensures StaysSound(t, ImportGroups(t, dir, rows).tables)
  {
    hide Sound, LockedAt, ImportGroup;
    if rows != [] {
      ImportGroupsSound(t, dir, rows[..|rows| - 1]);
      ImportGroupSound(ImportGroups(t, dir, rows[..|rows| - 1]), dir, rows[|rows| - 1]);
    }
  }

  lemma {:induction false} ImportGrantsSound(t: Tables, dir: map<string, nat>, ids: map<string, nat>, rows: seq<AccountRow>)
    requires Valid(t)
    ensures SameWorld(t, ImportGrants(t, dir, ids, rows))
  {
    hide Valid, RowsTidy, SetAccountAccess, FindAccount, Lookup, LookupGroups;
    if rows != [] {
      var row := rows[|rows| - 1];
      ImportGrantsSound(t, dir, ids, rows[..|rows| - 1]);
      var before := ImportGrants(t, dir, ids, rows[..|rows| - 1]);
      if FindAccount(before, row.username).Some? {
        var a := FindAccount(before, row.username).value;
        AccessStepsValid(before, a, row.roles, Lookup(dir, row.userIds), LookupGroups(ids, row.groupNames));
        if RowsTidy(before) {
          AccessTidy(before, a, row.roles, Lookup(dir, row.userIds), LookupGroups(ids, row.groupNames));
        }
      }
    }
  }

  lemma DirectoryFits(t: Tables)
    requires Valid(t)
    ensures DirectoryOf(Directory(t), t)
  {
  }

  /** Any backup at all, imported into a sound store, leaves a sound store. */
  lemma ImportSound(t: Tables, bak: Backup)
    requires Sound(t)
    ensures StaysSound(t, Import(t, bak))
  {
    hide Valid, WellNamed, LockedAt, RowsTidy, GroupsTidy, RolesTidy, ImportUsers, ImportAccounts, ImportGroups, ImportGrants, Directory, DirectoryOf;
    ImportUsersSound(t, bak.users);
    var t1 := ImportUsers(t, bak.users);
    DirectoryFits(t1);
    ImportAccountsSound(t1, Directory(t1), bak.accounts);
    var t2 := ImportAccounts(t1, Directory(t1), bak.accounts);
    ImportGroupsSound(t2, Directory(t1), bak.groups);
    var grouped := ImportGroups(t2, Directory(t1), bak.groups);
    ImportGrantsSound(grouped.tables, Directory(t1), grouped.ids, bak.accounts);
  }
}
