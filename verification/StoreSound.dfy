// Every store operation keeps the indexes and references, table by table.
module StoreSound {
  import opened Access
  import opened DefaultGroup
  import opened Roles
  import opened StoreOps
  import opened Tables
  import opened Text

  // ----- Users -----

  lemma UserRowsValid(t: Tables, users: map<nat, User>, userIds: map<string, nat>, nextUser: nat)
    requires Valid(t) && UsersIndexed(users, userIds, nextUser) && t.users.Keys <= users.Keys
    ensures Valid(t.(users := users, userIds := userIds, nextUser := nextUser))
  {
    hide UsersIndexed, NamesFiled, TagsFiled, NamesRefer, TagsRefer, AccountsIndexed, GroupsNumbered, KeysIn;
  }

  lemma UpsertValid(t: Tables, discordId: string, displayName: string, roles: seq<string>)
    requires Valid(t)
    ensures Valid(UpsertUser(t, discordId, displayName, roles).0)
    ensures UpsertUser(t, discordId, displayName, roles).0.groups == t.groups
  {
    hide Valid, UsersIndexed, UpsertUser;
    ValidUsers(t);
    Upserted(t, discordId, displayName, roles);
    if discordId in t.userIds {
      IndexedUser(t, discordId);
      var u := t.users[t.userIds[discordId]];
      UserUpdateValid(t, t.userIds[discordId], u.(displayName := displayName, roles := if roles == [] then u.roles else roles));
    } else {
      AddUserIndexed(t.users, t.userIds, t.nextUser, User(discordId, displayName, roles, false));
      var t' := UpsertUser(t, discordId, displayName, roles).0;
      UserRowsValid(t, t'.users, t'.userIds, t'.nextUser);
    }
  }

  lemma Upserted(t: Tables, discordId: string, displayName: string, roles: seq<string>)
    requires UsersIndexed(t.users, t.userIds, t.nextUser)
    ensures var t' := UpsertUser(t, discordId, displayName, roles).0;
      t' == if discordId in t.userIds
            then var id := t.userIds[discordId];
                 var u := t.users[id];
                 t.(users := t.users[id := u.(displayName := displayName, roles := if roles == [] then u.roles else roles)])
            else t.(users := t.users[t.nextUser := User(discordId, displayName, roles, false)],
                    userIds := t.userIds[discordId := t.nextUser], nextUser := t.nextUser + 1)
  {
  }

  lemma IndexedUser(t: Tables, discordId: string)
    requires UsersIndexed(t.users, t.userIds, t.nextUser) && discordId in t.userIds
    ensures t.userIds[discordId] in t.users && t.users[t.userIds[discordId]].discordId == discordId
  {
  }

  lemma AddUserIndexed(users: map<nat, User>, ids: map<string, nat>, next: nat, user: User)
    requires UsersIndexed(users, ids, next) && user.discordId !in ids
    ensures UsersIndexed(users[next := user], ids[user.discordId := next], next + 1)
    ensures users.Keys <= users[next := user].Keys
  {
  }

  lemma UserUpdateValid(t: Tables, u: nat, user: User)
    requires Valid(t) && u in t.users && user.discordId == t.users[u].discordId
    ensures Valid(t.(users := t.users[u := user]))
  {
    ValidUsers(t);
    hide Valid;
    UserRowsValid(t, t.users[u := user], t.userIds, t.nextUser);
  }

  lemma ValidUsers(t: Tables)
    requires Valid(t)
    ensures UsersIndexed(t.users, t.userIds, t.nextUser)
  {
  }

  // ----- Accounts -----

  lemma AddAccountValid(t: Tables, username: string, password: string)
    requires Valid(t)
    ensures var t' := AddEQAccount(t, username, password).0;
      Valid(t') && WorldOf(t') == WorldOf(t)
  {
    hide Valid, RowOf, AccountKey;
    if AccountKey(username) !in t.accountIds {
      AddAccountStep(t, username, password);
    }
  }

  lemma PasswordValid(t: Tables, a: nat, password: string)
    requires Valid(t)
    ensures Valid(SetEQPassword(t, a, password)) && WorldOf(SetEQPassword(t, a, password)) == WorldOf(t)
  {
    hide Valid, RowOf;
    if a in t.accounts {
      SetPasswordStep(t, a, password);
    }
  }

  lemma DisabledValid(t: Tables, a: nat, disabled: bool)
    requires Valid(t)
    ensures Valid(SetEQDisabled(t, a, disabled)) && WorldOf(SetEQDisabled(t, a, disabled)) == WorldOf(t)
  {
    hide Valid, RowOf;
    if a in t.accounts {
      SetDisabledStep(t, a, disabled);
    }
  }

  /** Deleting the rows of a missing account. */
  lemma NoAccountSteps(t: Tables, a: nat, roles: seq<string>, users: seq<int>, groups: seq<int>)
    requires Valid(t) && a !in t.accounts
    ensures var (t', _) := SetAccountAccess(t, a, roles, users, groups);
      Valid(t') && WorldOf(t') == WorldOf(t)
  {
    hide CleanRoles, CleanIds, Valid, Put;
    RowsDropped(t, a);
    RowsDropped(t.(accessRoles := Put(t.accessRoles, a, {})), a);
    RowsDropped(t.(accessRoles := Put(t.accessRoles, a, {}), accessUsers := Put(t.accessUsers, a, {})), a);
    NoElems();
  }

  lemma NoElems()
    ensures Elems<nat>([]) == {}
  {
  }

  lemma RowsDropped(t: Tables, a: nat)
    requires Valid(t)
    ensures Valid(t.(accessRoles := Put(t.accessRoles, a, {}))) && Valid(t.(accessUsers := Put(t.accessUsers, a, {})))
    ensures Valid(t.(links := Put(t.links, a, {})))
  {
    hide UsersIndexed, AccountsIndexed, OwnersIn, GroupsNumbered, NamesFiled, NamesRefer, TagsFiled, TagsRefer;
  }

  lemma AccessStepsValid(t: Tables, a: nat, roles: seq<string>, users: seq<int>, groups: seq<int>)
    requires Valid(t)
    ensures var t' := SetAccountAccess(t, a, roles, users, groups).0;
      Valid(t') && WorldOf(t') == WorldOf(t)
  {
    if a !in t.accounts {
      NoAccountSteps(t, a, roles, users, groups);
    } else {
      hide Valid, RowOf, ReplaceAccountRoles, ReplaceAccountUsers, ReplaceAccountGroups;
      RolesStep(t, a, roles);
      var t1 := ReplaceAccountRoles(t, a, roles).0;
      UsersStep(t1, a, users);
      GroupsStep(ReplaceAccountUsers(t1, a, users).0, a, groups);
    }
  }

  lemma ShareValid(t: Tables, owner: nat, username: string, password: string, aliases: seq<string>,
                   users: seq<int>, roles: seq<string>, groups: seq<int>)
    requires Valid(t) && owner in t.users
    ensures var t' := ShareLocalAccount(t, owner, username, password, aliases, users, roles, groups).0;
      Valid(t') && WorldOf(t') == WorldOf(t)
  {
    hide Valid, RowOf, CleanIds, CleanRoles, ShareTarget, AddAliases, SharesBefore,
         ReplaceAccountShares, ReplaceAccountRoles, ReplaceAccountGroups, WithoutOwner, NewRecipients;
    var name := Trim(username);
    if name != "" {
      TrimTrims(username);
      TrimOfTrimmed(name);
      ShareTargetStep(t, owner, name, password);
      var (t1, target) := ShareTarget(t, owner, name, password);
      if target.Ok? {
        var a := target.value;
        AddAliasesStep(t1, name, aliases, a);
        var t2 := AddAliases(t1, name, aliases, a);
        SharesStep(t2, a, Recipients(owner, users));
        var t3 := ReplaceAccountShares(t2, a, Recipients(owner, users)).0;
        RolesStep(t3, a, CleanRoles(roles));
        GroupsStep(ReplaceAccountRoles(t3, a, CleanRoles(roles)).0, a, CleanIds(groups));
      }
    }
  }

  // ----- Names -----

  lemma NamesValid(t: Tables, names: map<string, Named>)
    requires Valid(t) && NamesFiled(names) && NamesRefer(names, t.accounts.Keys)
    ensures Valid(t.(aliases := names)) && Valid(t.(characters := names))
  {
    hide UsersIndexed, AccountsIndexed, OwnersIn, GroupsNumbered, KeysIn, ValuesIn, NamesFiled, NamesRefer, TagsFiled, TagsRefer;
  }

  lemma TagsValid(t: Tables, tags: map<(string, nat), string>)
    requires Valid(t) && TagsFiled(tags) && TagsRefer(tags, t.accounts.Keys)
    ensures Valid(t.(tags := tags))
  {
    hide UsersIndexed, AccountsIndexed, OwnersIn, GroupsNumbered, KeysIn, ValuesIn, NamesFiled, NamesRefer, TagsFiled, TagsRefer;
  }

  lemma ValidNames(t: Tables)
    requires Valid(t)
    ensures NamesFiled(t.aliases) && NamesRefer(t.aliases, t.accounts.Keys)
    ensures NamesFiled(t.characters) && NamesRefer(t.characters, t.accounts.Keys)
    ensures TagsFiled(t.tags) && TagsRefer(t.tags, t.accounts.Keys)
  {
  }

  lemma AddNameFiled(names: map<string, Named>, text: string, a: nat, known: bool, ids: set<nat>)
    requires NamesFiled(names) && NamesRefer(names, ids) && (known ==> a in ids)
    ensures NamesFiled(AddName(names, text, a, known).0) && NamesRefer(AddName(names, text, a, known).0, ids)
    ensures NamesFiled(RemoveName(names, text, a).0) && NamesRefer(RemoveName(names, text, a).0, ids)
  {
    hide Trim;
    TrimTrims(text);
  }

  lemma AddTagFiled(tags: map<(string, nat), string>, text: string, a: nat, known: bool, ids: set<nat>)
    requires TagsFiled(tags) && TagsRefer(tags, ids) && (known ==> a in ids)
    ensures TagsFiled(AddTagTo(tags, text, a, known).0) && TagsRefer(AddTagTo(tags, text, a, known).0, ids)
    ensures TagsFiled(RemoveTagFrom(tags, text, a).0) && TagsRefer(RemoveTagFrom(tags, text, a).0, ids)
  {
    hide Trim;
    TrimTrims(text);
  }

  lemma AliasesValid(t: Tables, text: string, a: nat)
    requires Valid(t)
    ensures Valid(AddAlias(t, text, a).0) && Valid(RemoveAlias(t, text, a).0)
  {
    hide Valid, AddName, RemoveName, NamesFiled, NamesRefer;
    ValidNames(t);
    AddNameFiled(t.aliases, text, a, a in t.accounts, t.accounts.Keys);
    NamesValid(t, AddName(t.aliases, text, a, a in t.accounts).0);
    NamesValid(t, RemoveName(t.aliases, text, a).0);
  }

  lemma CharactersValid(t: Tables, text: string, a: nat)
    requires Valid(t)
    ensures Valid(AddCharacter(t, text, a).0) && Valid(RemoveCharacter(t, text, a).0)
  {
    hide Valid, AddName, RemoveName, NamesFiled, NamesRefer;
    ValidNames(t);
    AddNameFiled(t.characters, text, a, a in t.accounts, t.accounts.Keys);
    NamesValid(t, AddName(t.characters, text, a, a in t.accounts).0);
    NamesValid(t, RemoveName(t.characters, text, a).0);
  }

  lemma TagStepsValid(t: Tables, text: string, a: nat)
    requires Valid(t)
    ensures Valid(AddTag(t, text, a).0) && Valid(RemoveTag(t, text, a).0)
  {
    hide Valid, AddTagTo, RemoveTagFrom, TagsFiled, TagsRefer;
    ValidNames(t);
    AddTagFiled(t.tags, text, a, a in t.accounts, t.accounts.Keys);
    TagsValid(t, AddTagTo(t.tags, text, a, a in t.accounts).0);
    TagsValid(t, RemoveTagFrom(t.tags, text, a).0);
  }

  // ----- Groups -----

  lemma GroupRowsValid(t: Tables, groups: map<nat, Group>, nextGroup: nat)
    requires Valid(t) && t.groups.Keys <= groups.Keys && GroupsNumbered(groups, nextGroup)
    ensures Valid(t.(groups := groups, nextGroup := nextGroup))
  {
    hide UsersIndexed, AccountsIndexed, OwnersIn, NamesFiled, NamesRefer, TagsFiled, TagsRefer;
  }

  lemma ValidGroups(t: Tables)
    requires Valid(t)
    ensures GroupsNumbered(t.groups, t.nextGroup)
  {
  }

  lemma CreateGroupValid(t: Tables, name: string, description: string, webRole: string, commands: seq<string>)
    requires Valid(t)
    ensures Valid(CreateGroup(t, name, description, webRole, commands).0)
  {
    hide Valid, Trim, NormalizeCommands, NormalizeWebRole, FindGroup, NameTaken, IsDefaultGroupName;
    ValidGroups(t);
    var t' := CreateGroup(t, name, description, webRole, commands).0;
    GroupRowsValid(t, t'.groups, t'.nextGroup);
  }

  lemma UpdateGroupMetaValid(t: Tables, g: nat, name: string, description: string, webRole: string, commands: seq<string>)
    requires Valid(t)
    ensures Valid(UpdateGroupMeta(t, g, name, description, webRole, commands).0)
  {
    hide Valid, Trim, NormalizeCommands, NormalizeWebRole, NameTaken, IsDefaultGroup, IsDefaultGroupName;
    ValidGroups(t);
    var t' := UpdateGroupMeta(t, g, name, description, webRole, commands).0;
    GroupRowsValid(t, t'.groups, t'.nextGroup);
  }

  lemma DeleteGroupValid(t: Tables, g: nat)
    requires Valid(t)
    ensures Valid(DeleteGroup(t, g).0)
  {
    hide UsersIndexed, AccountsIndexed, OwnersIn, NamesFiled, NamesRefer, TagsFiled, TagsRefer, IsDefaultGroup;
  }

  /** Members and links that refer to what there is. */
  lemma MembersValid(t: Tables, memberUsers: set<(nat, nat)>, memberRoles: set<(nat, string)>, links: set<(nat, nat)>)
    requires Valid(t) && KeysIn(memberUsers, t.groups.Keys) && ValuesIn(memberUsers, t.users.Keys) && KeysIn(memberRoles, t.groups.Keys)
    requires KeysIn(links, t.accounts.Keys) && ValuesIn(links, t.groups.Keys)
    ensures Valid(t.(memberUsers := memberUsers, memberRoles := memberRoles, links := links))
  {
    hide UsersIndexed, AccountsIndexed, OwnersIn, GroupsNumbered, KeysIn, ValuesIn, NamesFiled, NamesRefer, TagsFiled, TagsRefer;
  }

  lemma ValidMembers(t: Tables)
    requires Valid(t)
    ensures KeysIn(t.memberUsers, t.groups.Keys) && ValuesIn(t.memberUsers, t.users.Keys) && KeysIn(t.memberRoles, t.groups.Keys)
    ensures KeysIn(t.links, t.accounts.Keys) && ValuesIn(t.links, t.groups.Keys)
  {
  }

  lemma MembershipValid(t: Tables, g: nat, users: seq<int>, roles: seq<string>)
    requires Valid(t)
    ensures var t' := ReplaceGroupMembership(t, g, users, roles).0;
      Valid(t') && t'.groups == t.groups
  {
    hide Valid, CleanRoles, CleanIds;
    ValidMembers(t);
    var t' := ReplaceGroupMembership(t, g, users, roles).0;
    MembersValid(t, t'.memberUsers, t'.memberRoles, t.links);
  }

  lemma LinksValid(t: Tables, g: nat, accounts: seq<int>)
    requires Valid(t)
    ensures var t' := ReplaceGroupAccountLinks(t, g, accounts).0;
      Valid(t') && t'.groups == t.groups
  {
    hide Valid, CleanIds;
    ValidMembers(t);
    var t' := ReplaceGroupAccountLinks(t, g, accounts).0;
    MembersValid(t, t.memberUsers, t.memberRoles, t'.links);
  }

  lemma OneUserValid(t: Tables, g: nat, user: nat)
    requires Valid(t)
    ensures Valid(AddGroupUser(t, g, user).0) && Valid(RemoveGroupUser(t, g, user))
  {
    hide Valid;
    ValidMembers(t);
    MembersValid(t, AddGroupUser(t, g, user).0.memberUsers, t.memberRoles, t.links);
    MembersValid(t, RemoveGroupUser(t, g, user).memberUsers, t.memberRoles, t.links);
  }

  lemma OneRoleValid(t: Tables, g: nat, role: string)
    requires Valid(t)
    ensures Valid(AddGroupRole(t, g, role).0) && Valid(RemoveGroupRole(t, g, role))
  {
    hide Valid, Trim;
    ValidMembers(t);
    MembersValid(t, t.memberUsers, AddGroupRole(t, g, role).0.memberRoles, t.links);
    MembersValid(t, t.memberUsers, RemoveGroupRole(t, g, role).memberRoles, t.links);
  }

  lemma OneLinkValid(t: Tables, g: nat, account: nat)
    requires Valid(t)
    ensures Valid(LinkAccountGroup(t, account, g).0) && Valid(UnlinkAccountGroup(t, account, g))
  {
    hide Valid;
    ValidMembers(t);
    MembersValid(t, t.memberUsers, t.memberRoles, LinkAccountGroup(t, account, g).0.links);
    MembersValid(t, t.memberUsers, t.memberRoles, UnlinkAccountGroup(t, account, g).links);
  }

  lemma EnsureValid(t: Tables)
    requires Valid(t) && WellNamed(t.groups)
    ensures Valid(EnsureDefaultGroup(t).0)
  {
    hide Valid, EnsureDefaultGroup;
    ValidGroups(t);
    EnsureLocks(t);
    var t' := EnsureDefaultGroup(t).0;
    GroupRowsValid(t, t'.groups, t'.nextGroup);
  }

  lemma DeleteAccountValid(t: Tables, a: nat)
    requires Valid(t)
    ensures Valid(DeleteEQAccount(t, a).0) && WorldOf(DeleteEQAccount(t, a).0) == WorldOf(t)
  {
    hide UsersIndexed, GroupsNumbered, AccountKey, Put, AccountsIndexed, NamesFiled, TagsFiled, KeysIn, ValuesIn, NamesNotOf, TagsNotOf, NamesRefer, TagsRefer;
    if a in t.accounts {
      var accounts := t.accounts - {a};
      assert accounts.Keys == t.accounts.Keys - {a};
      UnindexAccount(t.accounts, t.accountIds, t.nextAccount, a);
      NamesLeft(t.aliases, a, t.accounts.Keys);
      NamesLeft(t.characters, a, t.accounts.Keys);
      TagsLeft(t.tags, a, t.accounts.Keys);
      RowsLeft(t.accessRoles, a, t.accounts.Keys);
      RowsLeft(t.accessUsers, a, t.accounts.Keys);
      RowsLeft(t.shares, a, t.accounts.Keys);
      RowsLeft(t.links, a, t.accounts.Keys);
      PutValues(t.accessUsers, a, {}, t.users.Keys);
      PutValues(t.shares, a, {}, t.users.Keys);
      PutValues(t.links, a, {}, t.groups.Keys);
    }
  }

  lemma UnindexAccount(accounts: map<nat, Account>, ids: map<string, nat>, next: nat, a: nat)
    requires AccountsIndexed(accounts, ids, next) && a in accounts
    ensures AccountsIndexed(accounts - {a}, ids - {AccountKey(accounts[a].username)}, next)
  {
    hide AccountKey;
  }

  lemma NamesLeft(names: map<string, Named>, a: nat, accounts: set<nat>)
    requires NamesFiled(names) && NamesRefer(names, accounts)
    ensures NamesFiled(NamesNotOf(names, a)) && NamesRefer(NamesNotOf(names, a), accounts - {a})
  {
  }

  lemma TagsLeft(tags: map<(string, nat), string>, a: nat, accounts: set<nat>)
    requires TagsFiled(tags) && TagsRefer(tags, accounts)
    ensures TagsFiled(TagsNotOf(tags, a)) && TagsRefer(TagsNotOf(tags, a), accounts - {a})
  {
  }

  lemma RowsLeft<V>(rows: set<(nat, V)>, a: nat, accounts: set<nat>)
    requires KeysIn(rows, accounts)
    ensures KeysIn(Put(rows, a, {}), accounts - {a})
  {
  }
}
