// Export and import as the code does them, row by row on the store.
module Backups {
  import opened BackupAccounts
  import opened BackupLoops
  import opened BackupOps
  import opened BackupSound
  import opened StoreRuns
  import opened Stores
  import opened Tables
  import opened Text
  import opened Wrappers
  import Ops = StoreOps

  // ----- Replacing names -----

  method ReplaceAccountAliases(store: Store, account: nat, username: string, aliases: seq<string>) returns (ok: bool)
    requires NamesFiled(store.aliases)
    modifies store`aliases
    ensures store.Contents() == ReplaceAliases(old(store.Contents()), account, username, aliases)
  {
    hide NamesFiled, NamesOf, Left, AliasesKept, AddNames, Ops.AddName, Ops.RemoveName, Trim, EqualFold;
    ghost var was := store.aliases;
    RemoveEnds(was, account, username);
    if account in store.accounts {
      var rest := NamesOf(store.aliases, account);
      assert NamesOf(was, account) - rest == {};
      while rest != {}
        invariant rest <= NamesOf(was, account)
        invariant store.aliases == Left(was, account, Some(username), NamesOf(was, account) - rest)
        modifies store`aliases
        decreases |rest|
      {
        var al :| al in rest;
        RemoveStep(was, account, Some(username), NamesOf(was, account) - rest, al);
        assert NamesOf(was, account) - (rest - {al}) == NamesOf(was, account) - rest + {al};
        if !EqualFold(al, username) {
          var _ := store.RemoveAlias(al, account);
        }
        rest := rest - {al};
      }
      assert NamesOf(was, account) - {} == NamesOf(was, account);
    }
    ghost var kept := store.aliases;
    NoNames(kept, account, account in store.accounts, Some(username));
    for i := 0 to |aliases|
      invariant (store.aliases, true) == AddNames(kept, aliases[..i], account, account in store.accounts, Some(username))
      modifies store`aliases
    {
      AddNamesStepTo(kept, aliases, account, account in store.accounts, Some(username), i);
      var al := Trim(aliases[i]);
      if al == "" || EqualFold(al, username) {
        continue;
      }
      TrimTwice(aliases[i]);
      ok := store.AddAlias(al, account);
      if !ok {
        AddNamesStop(kept, aliases, account, account in store.accounts, Some(username), i + 1);
        return;
      }
    }
    assert aliases[..|aliases|] == aliases;
    ok := true;
  }

  method ReplaceAccountCharacters(store: Store, account: nat, characters: seq<string>) returns (ok: bool)
    requires NamesFiled(store.characters)
    modifies store`characters
    ensures store.Contents() == ReplaceCharacters(old(store.Contents()), account, characters)
  {
    hide NamesFiled, NamesOf, Left, Ops.NamesNotOf, AddNames, Ops.AddName, Ops.RemoveName, Trim;
    ghost var was := store.characters;
    RemoveEnds(was, account, "");
    if account in store.accounts {
      var rest := NamesOf(store.characters, account);
      assert NamesOf(was, account) - rest == {};
      while rest != {}
        invariant rest <= NamesOf(was, account)
        invariant store.characters == Left(was, account, None, NamesOf(was, account) - rest)
        modifies store`characters
        decreases |rest|
      {
        var c :| c in rest;
        RemoveStep(was, account, None, NamesOf(was, account) - rest, c);
        assert NamesOf(was, account) - (rest - {c}) == NamesOf(was, account) - rest + {c};
        var _ := store.RemoveCharacter(c, account);
        rest := rest - {c};
      }
      assert NamesOf(was, account) - {} == NamesOf(was, account);
    }
    ghost var kept := store.characters;
    NoNames(kept, account, account in store.accounts, None);
    for i := 0 to |characters|
      invariant (store.characters, true) == AddNames(kept, characters[..i], account, account in store.accounts, None)
      modifies store`characters
    {
      AddNamesStepTo(kept, characters, account, account in store.accounts, None, i);
      AddTrimmed(store.characters, characters[i], account, account in store.accounts);
      ok := store.AddCharacter(characters[i], account);
      if !ok {
        AddNamesStop(kept, characters, account, account in store.accounts, None, i + 1);
        return;
      }
    }
    assert characters[..|characters|] == characters;
    ok := true;
  }

  method ReplaceAccountTags(store: Store, account: nat, tags: seq<string>) returns (ok: bool)
    requires TagsFiled(store.tags)
    modifies store`tags
    ensures store.Contents() == ReplaceTags(old(store.Contents()), account, tags)
  {
    hide TagsFiled, TagsOf, BackupLoops.TagsLeft, Ops.TagsNotOf, AddTags, Ops.AddTagTo, Ops.RemoveTagFrom, Trim;
    ghost var was := store.tags;
    RemoveTagEnds(was, account);
    if account in store.accounts {
      var rest := TagsOf(store.tags, account);
      assert TagsOf(was, account) - rest == {};
      while rest != {}
        invariant rest <= TagsOf(was, account)
        invariant store.tags == BackupLoops.TagsLeft(was, account, TagsOf(was, account) - rest)
        modifies store`tags
        decreases |rest|
      {
        var tag :| tag in rest;
        RemoveTagStep(was, account, TagsOf(was, account) - rest, tag);
        assert TagsOf(was, account) - (rest - {tag}) == TagsOf(was, account) - rest + {tag};
        var _ := store.RemoveTag(tag, account);
        rest := rest - {tag};
      }
      assert TagsOf(was, account) - {} == TagsOf(was, account);
    }
    ghost var kept := store.tags;
    NoTags(kept, account, account in store.accounts);
    for i := 0 to |tags|
      invariant (store.tags, true) == AddTags(kept, tags[..i], account, account in store.accounts)
      modifies store`tags
    {
      AddTagsStepTo(kept, tags, account, account in store.accounts, i);
      ok := store.AddTag(tags[i], account);
      if !ok {
        AddTagsStop(kept, tags, account, account in store.accounts, i + 1);
        return;
      }
    }
    assert tags[..|tags|] == tags;
    ok := true;
  }

  lemma NoNames(names: map<string, Named>, account: nat, known: bool, username: Option<string>)
    ensures AddNames(names, [], account, known, username) == (names, true)
  {
  }

  lemma NoTags(tags: map<(string, nat), string>, account: nat, known: bool)
    ensures AddTags(tags, [], account, known) == (tags, true)
  {
  }

  lemma TrimTwice(text: string)
    ensures Trim(Trim(text)) == Trim(text)
  {
    TrimTrims(text);
    TrimOfTrimmed(Trim(text));
  }

  lemma AddTrimmed(names: map<string, Named>, text: string, account: nat, known: bool)
    ensures Ops.AddName(names, Trim(text), account, known) == Ops.AddName(names, text, account, known)
  {
    TrimTwice(text);
  }

  // ----- Lookups -----

  method LookupUsers(dir: map<string, nat>, ids: seq<string>) returns (out: seq<nat>)
    ensures out == Lookup(dir, ids)
  {
    hide Trim;
    out := [];
    for i := 0 to |ids|
      invariant out == Lookup(dir, ids[..i])
    {
      LookupStep(dir, ids, i);
      if Trim(ids[i]) in dir {
        out := out + [dir[Trim(ids[i])]];
      }
    }
    assert ids[..|ids|] == ids;
  }

  method LookupLinked(store: Store, usernames: seq<string>) returns (out: seq<nat>)
    ensures out == LookupAccounts(store.Contents(), usernames)
  {
    hide Ops.FindAccount;
    out := [];
    for i := 0 to |usernames|
      invariant out == LookupAccounts(store.Contents(), usernames[..i])
    {
      LookupAccountsStep(store.Contents(), usernames, i);
      var id := store.FindEQAccountIDByUsername(usernames[i]);
      if id.Some? {
        out := out + [id.value];
      }
    }
    assert usernames[..|usernames|] == usernames;
  }

  method LookupGroupIds(ids: map<string, nat>, names: seq<string>) returns (out: seq<nat>)
    ensures out == LookupGroups(ids, names)
  {
    hide Trim, Lower;
    out := [];
    for i := 0 to |names|
      invariant out == LookupGroups(ids, names[..i])
    {
      LookupGroupsStep(ids, names, i);
      if Lower(Trim(names[i])) in ids {
        out := out + [ids[Lower(Trim(names[i]))]];
      }
    }
    assert names[..|names|] == names;
  }

  // ----- Import, pass by pass -----

  /** The users pass, and the directory it fills on the way. */
  method ImportUserRows(store: Store, rows: seq<UserRow>) returns (dir: map<string, nat>)
    requires Sound(store.Contents())
    modifies store
    ensures store.Contents() == ImportUsers(old(store.Contents()), rows)
    ensures dir == Directory(store.Contents())
  {
    hide Sound, Ops.UpsertUser, Ops.SetUserRoles, Ops.SetUserAccessRevoked, Trim, ImportUsers;
    ghost var was := store.Contents();
    dir := map[];
    NoUsers(was);
    for i := 0 to |rows|
      invariant store.Contents() == ImportUsers(was, rows[..i])
      invariant DirectoryWithin(dir, store.userIds)
    {
      ImportUsersStep(was, rows, i);
      ImportUsersSound(was, rows[..i]);
      ghost var before := store.Contents();
      var row := rows[i];
      var did := Trim(row.discordId);
      if did == "" {
        continue;
      }
      IdsKept(before, did, row.displayName, row.roles);
      var u := store.UpsertUser(did, row.displayName, row.roles);
      store.SetUserRoles(u, row.roles);
      var _ := store.SetUserAccessRevoked(u, row.revoked);
      OnlyUsers(Ops.UpsertUser(before, did, row.displayName, row.roles).0, u, row.roles, row.revoked);
      dir := dir[did := u];
    }
    assert rows[..|rows|] == rows;
    ImportUsersSound(was, rows);
    IndexSound(store.Contents());
    dir := FillDirectory(store, dir);
  }

  /** Users that were there but not in the file join the directory. */
  method FillDirectory(store: Store, found: map<string, nat>) returns (dir: map<string, nat>)
    requires UsersIndexed(store.users, store.userIds, store.nextUser) && DirectoryWithin(found, store.userIds)
    ensures dir == Directory(store.Contents())
  {
    dir := found;
    var rest := store.users.Keys;
    while rest != {}
      invariant rest <= store.users.Keys
      invariant DirectoryWithin(dir, store.userIds)
      invariant forall u :: u in store.users && u !in rest && store.users[u].discordId != "" ==> store.users[u].discordId in dir
      decreases |rest|
    {
      var u :| u in rest;
      var did := store.users[u].discordId;
      if did != "" && did !in dir {
        dir := dir[did := u];
      }
      rest := rest - {u};
    }
    DirectoryFull(store.Contents(), dir);
  }

  ghost predicate DirectoryWithin(dir: map<string, nat>, userIds: map<string, nat>) {
    forall d :: d in dir ==> d != "" && d in userIds && dir[d] == userIds[d]
  }

  lemma NoUsers(t: Tables)
    ensures ImportUsers(t, []) == t
  {
  }

  lemma IdsKept(t: Tables, did: string, displayName: string, roles: seq<string>)
    requires Sound(t)
    ensures var (t', u) := Ops.UpsertUser(t, did, displayName, roles);
      && did in t'.userIds && t'.userIds[did] == u
      && forall d :: d in t.userIds ==> d in t'.userIds && t'.userIds[d] == t.userIds[d]
  {
    hide Sound, Ops.UpsertUser;
    IndexSound(t);
    UpsertIndex(t, did, displayName, roles);
  }

  lemma UpsertIndex(t: Tables, did: string, displayName: string, roles: seq<string>)
    requires UsersIndexed(t.users, t.userIds, t.nextUser)
    ensures var (t', u) := Ops.UpsertUser(t, did, displayName, roles);
      && t'.userIds == t.userIds[did := u] && (did in t.userIds ==> u == t.userIds[did])
  {
    if did in t.userIds {
      assert t.userIds[did := t.userIds[did]] == t.userIds;
    }
  }

  lemma IndexSound(t: Tables)
    requires Sound(t)
    ensures UsersIndexed(t.users, t.userIds, t.nextUser)
  {
  }

  lemma OnlyUsers(t: Tables, u: nat, roles: seq<string>, revoked: bool)
    ensures Ops.SetUserAccessRevoked(Ops.SetUserRoles(t, u, roles), u, revoked).0.userIds == t.userIds
  {
    hide Ops.SetUserAccessRevoked, Ops.SetUserRoles;
    RolesKeepIds(t, u, roles);
    RevokedKeepsIds(Ops.SetUserRoles(t, u, roles), u, revoked);
  }

  lemma RolesKeepIds(t: Tables, u: nat, roles: seq<string>)
    ensures Ops.SetUserRoles(t, u, roles).userIds == t.userIds
  {
    hide Roles.CleanRoles;
  }

  lemma RevokedKeepsIds(t: Tables, u: nat, revoked: bool)
    ensures Ops.SetUserAccessRevoked(t, u, revoked).0.userIds == t.userIds
  {
  }

  lemma DirectoryFull(t: Tables, dir: map<string, nat>)
    requires UsersIndexed(t.users, t.userIds, t.nextUser) && DirectoryWithin(dir, t.userIds)
    requires forall u :: u in t.users && t.users[u].discordId != "" ==> t.users[u].discordId in dir
    ensures dir == Directory(t)
  {
  }

  method ImportAccountRow(store: Store, dir: map<string, nat>, row: AccountRow)
    requires Valid(store.Contents()) && DirectoryOf(dir, store.Contents())
    modifies store
    ensures store.Contents() == ImportAccount(old(store.Contents()), dir, row)
  {
    hide Valid, DirectoryOf, Trim, Lookup, Ops.ShareLocalAccount, Ops.AddEQAccount, Ops.SetEQPassword, Ops.SetEQDisabled, Ops.SetAccountAccess,
         Ops.FindAccount, ReplaceAliases, ReplaceTags, ReplaceCharacters;
    ghost var was := store.Contents();
    var username := Trim(row.username);
    if username == "" {
      return;
    }
    var found := store.FindEQAccountIDByUsername(username);
    var id: nat := 0;
    PlacedSound(was, dir, username, row);
    if row.restricted {
      var ownerId := Trim(row.ownerId);
      if ownerId !in dir || ownerId == "" {
        return;
      }
      var shareIds := LookupUsers(dir, row.sharedIds);
      if found.None? && row.password == "" {
        return;
      }
      var r := store.ShareLocalAccount(dir[ownerId], username, row.password, row.aliases, shareIds, row.roles, []);
      if r.Err? {
        return;
      }
      id := r.value.account;
    } else {
      if found.None? {
        if Trim(row.password) == "" {
          return;
        }
        var added := store.AddEQAccount(username, row.password);
        if added.None? {
          return;
        }
        id := added.value;
      } else {
        id := found.value;
        if Trim(row.password) != "" {
          store.SetEQPassword(id, row.password);
        }
      }
      store.SetEQDisabled(id, row.disabled);
      var userIds := LookupUsers(dir, row.userIds);
      var _ := store.SetAccountAccess(id, row.roles, userIds, []);
    }
    ReplaceNames(store, id, username, row);
  }

  /** The names of a row, each list as far as it goes. */
  method ReplaceNames(store: Store, id: nat, username: string, row: AccountRow)
    requires Valid(store.Contents())
    modifies store
    ensures store.Contents()
         == ReplaceCharacters(ReplaceTags(ReplaceAliases(old(store.Contents()), id, username, row.aliases), id, row.tags), id, row.characters)
  {
    hide Valid, NamesFiled, TagsFiled, ReplaceAliases, ReplaceTags, ReplaceCharacters;
    ghost var was := store.Contents();
    FiledIn(was);
    NamesReplaced(was, id, username, row.aliases);
    var _ := ReplaceAccountAliases(store, id, username, row.aliases);
    FiledIn(store.Contents());
    TagsReplaced(store.Contents(), id, row.tags);
    var _ := ReplaceAccountTags(store, id, row.tags);
    FiledIn(store.Contents());
    var _ := ReplaceAccountCharacters(store, id, row.characters);
  }

  lemma FiledIn(t: Tables)
    requires Valid(t)
    ensures NamesFiled(t.aliases) && NamesFiled(t.characters) && TagsFiled(t.tags)
  {
  }

  method ImportGroupRow(store: Store, dir: map<string, nat>, ids: map<string, nat>, row: GroupRow) returns (ids': map<string, nat>)
    modifies store
    ensures Grouped(store.Contents(), ids') == ImportGroup(Grouped(old(store.Contents()), ids), dir, row)
  {
    hide Trim, Lower, Lookup, LookupAccounts, Ops.FindGroup, Ops.CreateGroup, Ops.UpdateGroupMeta, Ops.ReplaceGroupMembership,
         Ops.ReplaceGroupAccountLinks;
    ids' := ids;
    var name := Trim(row.name);
    if name == "" {
      return;
    }
    var found := store.FindGroupIDByName(name);
    var gid: nat := 0;
    if found.None? {
      var created := store.CreateGroup(name, row.description, row.webRole, row.commands);
      if created.None? {
        return;
      }
      gid := created.value;
    } else {
      gid := found.value;
      var ok := store.UpdateGroupMeta(gid, name, row.description, row.webRole, row.commands);
      if !ok {
        return;
      }
    }
    ids' := ids'[Lower(name) := gid];
    var members := LookupUsers(dir, row.memberIds);
    var _ := store.ReplaceGroupMembership(gid, members, row.memberRoles);
    var linked := LookupLinked(store, row.usernames);
    var _ := store.ReplaceGroupAccountLinks(gid, linked);
  }

  method ImportGrantRow(store: Store, dir: map<string, nat>, ids: map<string, nat>, row: AccountRow)
    modifies store
    ensures store.Contents() == ImportGrant(old(store.Contents()), dir, ids, row)
  {
    hide Lookup, LookupGroups, Ops.FindAccount, Ops.SetAccountAccess;
    if row.restricted || |row.groupNames| == 0 {
      return;
    }
    var found := store.FindEQAccountIDByUsername(row.username);
    if found.None? {
      return;
    }
    var gids := LookupGroupIds(ids, row.groupNames);
    var userIds := LookupUsers(dir, row.userIds);
    var _ := store.SetAccountAccess(found.value, row.roles, userIds, gids);
  }

  /** The passes in order. What they leave is the import of the whole backup, and sound. */
  method ImportConfigBackup(store: Store, bak: Backup)
    requires Sound(store.Contents())
    modifies store
    ensures store.Contents() == Import(old(store.Contents()), bak)
    ensures StaysSound(old(store.Contents()), store.Contents())
  {
    hide Sound, StaysSound, Valid, DirectoryOf, ImportUsers, ImportAccounts, ImportGroups, ImportGrants, ImportAccount, ImportGroup, ImportGrant, Directory, SameWorld;
    ghost var was := store.Contents();
    ImportSound(was, bak);
    ImportUsersSound(was, bak.users);
    var dir := ImportUserRows(store, bak.users);
    ghost var t1 := store.Contents();
    StaysValid(was, t1);
    DirectoryFits(t1);
    NoRows(t1, dir);
    for i := 0 to |bak.accounts|
      invariant store.Contents() == ImportAccounts(t1, dir, bak.accounts[..i])
    {
      ImportAccountsStep(t1, dir, bak.accounts, i);
      ImportAccountsSound(t1, dir, bak.accounts[..i]);
      SameDirectory(t1, store.Contents(), dir);
      ImportAccountRow(store, dir, bak.accounts[i]);
    }
    assert bak.accounts[..|bak.accounts|] == bak.accounts;
    ghost var t2 := store.Contents();
    NoRows(t2, dir);
    var ids: map<string, nat> := map[];
    for i := 0 to |bak.groups|
      invariant Grouped(store.Contents(), ids) == ImportGroups(t2, dir, bak.groups[..i])
    {
      ImportGroupsStep(t2, dir, bak.groups, i);
      ids := ImportGroupRow(store, dir, ids, bak.groups[i]);
    }
    assert bak.groups[..|bak.groups|] == bak.groups;
    ghost var t3 := store.Contents();
    NoGrants(t3, dir, ids);
    for i := 0 to |bak.accounts|
      invariant store.Contents() == ImportGrants(t3, dir, ids, bak.accounts[..i])
    {
      ImportGrantsStep(t3, dir, ids, bak.accounts, i);
      ImportGrantRow(store, dir, ids, bak.accounts[i]);
    }
  }

  lemma StaysValid(t: Tables, t': Tables)
    requires StaysSound(t, t')
    ensures Valid(t')
  {
  }

  lemma NoRows(t: Tables, dir: map<string, nat>)
    ensures ImportAccounts(t, dir, []) == t && ImportGroups(t, dir, []) == Grouped(t, map[])
  {
  }

  lemma NoGrants(t: Tables, dir: map<string, nat>, ids: map<string, nat>)
    ensures ImportGrants(t, dir, ids, []) == t
  {
  }

  lemma SameDirectory(t: Tables, t': Tables, dir: map<string, nat>)
    requires SameWorld(t, t') && DirectoryOf(dir, t)
    ensures Valid(t') && DirectoryOf(dir, t')
  {
    hide Valid;
  }
}
