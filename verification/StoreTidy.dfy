// What the store methods keep of the rows themselves: granted roles are trimmed and not blank,
// groups have normal permissions, a restricted account has an owner, and no owner is a
// recipient of his own share.
module StoreTidy {
  import opened Access
  import opened Roles
  import opened StoreOps
  import opened Tables
  import opened Text
  import opened Wrappers

  ghost predicate RoleTidy(role: string) {
    role != "" && IsTrimmed(role)
  }

  ghost predicate RowTidy(row: Row) {
    && (forall role :: role in row.roles ==> RoleTidy(role))
    && (row.account.Some? ==>
          && (row.account.value.restricted ==> row.account.value.owner.Some?)
          && forall u :: u in row.shares ==> row.account.value.owner != Some(u))
  }

  ghost predicate RowsTidy(t: Tables) {
    forall a: nat :: RowTidy(RowOf(t, a))
  }

  ghost predicate GroupTidy(group: Group) {
    NormalizeWebRole(group.webRole) == Some(group.webRole) && group.commands <= KNOWN_COMMANDS
  }

  ghost predicate GroupsTidy(groups: map<nat, Group>) {
    forall g :: g in groups ==> GroupTidy(groups[g])
  }

  ghost predicate RolesTidy(rows: set<(nat, string)>) {
    forall p :: p in rows ==> RoleTidy(p.1)
  }

  ghost predicate Tidy(t: Tables) {
    RowsTidy(t) && GroupsTidy(t.groups) && RolesTidy(t.memberRoles)
  }

  // ----- Accounts -----

  /** Rows are tidy or not by accounts, role grants and shares alone. */
  lemma SameTidyRows(t: Tables, t': Tables)
    requires RowsTidy(t) && t'.accounts == t.accounts && t'.accessRoles == t.accessRoles && t'.shares == t.shares
    ensures RowsTidy(t')
  {
    hide RoleTidy, Of, NamesOf, TagsOf;
    forall a: nat
      ensures RowTidy(RowOf(t', a))
    {
      assert RowTidy(RowOf(t, a));
    }
  }

  lemma OneTidy(t: Tables, t': Tables, a: nat)
    requires RowsTidy(t) && RowTidy(RowOf(t', a)) && forall b: nat :: b != a ==> RowOf(t', b) == RowOf(t, b)
    ensures RowsTidy(t')
  {
    hide RowTidy, RowOf;
    forall b: nat
      ensures RowTidy(RowOf(t', b))
    {
      if b != a {
        assert RowTidy(RowOf(t, b));
      }
    }
  }

  lemma AddAccountTidy(t: Tables, username: string, password: string)
    requires Valid(t) && RowsTidy(t)
    ensures RowsTidy(AddEQAccount(t, username, password).0)
  {
    hide Valid, RowOf, AccountKey, RowsTidy;
    if AccountKey(username) !in t.accountIds {
      AddAccountStep(t, username, password);
      OneTidy(t, AddEQAccount(t, username, password).0, t.nextAccount);
    }
  }

  /** Only an account's password or flag changes. */
  lemma AccountTidy(t: Tables, t': Tables, a: nat, account: Account)
    requires RowsTidy(t) && a in t.accounts && Changes(t, t', a, RowOf(t, a).(account := Some(account)))
    requires account.restricted == t.accounts[a].restricted && account.owner == t.accounts[a].owner
    ensures RowsTidy(t')
  {
    hide RoleTidy, Of, NamesOf, TagsOf;
    assert RowTidy(RowOf(t, a));
    OneTidy(t, t', a);
  }

  lemma PasswordTidy(t: Tables, a: nat, password: string)
    requires Valid(t) && RowsTidy(t)
    ensures RowsTidy(SetEQPassword(t, a, password))
  {
    hide Valid, RowOf, RowsTidy, Changes;
    if a in t.accounts {
      SetPasswordStep(t, a, password);
      AccountTidy(t, SetEQPassword(t, a, password), a, t.accounts[a].(password := password));
    }
  }

  lemma DisabledTidy(t: Tables, a: nat, disabled: bool)
    requires Valid(t) && RowsTidy(t)
    ensures RowsTidy(SetEQDisabled(t, a, disabled))
  {
    hide Valid, RowOf, RowsTidy, Changes;
    if a in t.accounts {
      SetDisabledStep(t, a, disabled);
      AccountTidy(t, SetEQDisabled(t, a, disabled), a, t.accounts[a].(disabled := disabled));
    }
  }

  /** A row keeps what it held of these. */
  lemma FewerTidy(row: Row, row': Row)
    requires RowTidy(row) && row'.roles <= row.roles && row'.shares <= row.shares
    requires row'.account.None? || row'.account == row.account
    ensures RowTidy(row')
  {
  }

  lemma DeleteAccountTidy(t: Tables, a: nat)
    requires RowsTidy(t)
    ensures RowsTidy(DeleteEQAccount(t, a).0)
  {
    hide RowTidy, NamesOf, TagsOf, NamesNotOf, TagsNotOf, AccountKey, Of, Put;
    if a in t.accounts {
      var t' := DeleteEQAccount(t, a).0;
      forall b: nat
        ensures RowTidy(RowOf(t', b))
      {
        assert RowTidy(RowOf(t, b));
        OfPut(t.accessRoles, a, {}, b);
        OfPut(t.shares, a, {}, b);
        FewerTidy(RowOf(t, b), RowOf(t', b));
      }
    }
  }

  lemma CleanTidy(roles: seq<string>)
    ensures forall role :: role in Elems(CleanRoles(roles)) ==> RoleTidy(role)
  {
    CleanRolesIsClean(roles);
  }

  /** The rows after one account's role grants are replaced. */
  lemma RolesRow(t: Tables, a: nat, roles: set<string>, b: nat)
    ensures RowOf(t.(accessRoles := Put(t.accessRoles, a, roles)), b)
         == RowOf(t, b).(roles := if b == a then roles else RowOf(t, b).roles)
  {
    hide NamesOf, TagsOf, Of, Put;
    OfPut(t.accessRoles, a, roles, b);
  }

  lemma PutRolesTidy(t: Tables, a: nat, roles: set<string>)
    requires RowsTidy(t) && forall role :: role in roles ==> RoleTidy(role)
    ensures RowsTidy(t.(accessRoles := Put(t.accessRoles, a, roles)))
  {
    hide RowOf, Put, RoleTidy;
    forall b: nat
      ensures RowTidy(RowOf(t.(accessRoles := Put(t.accessRoles, a, roles)), b))
    {
      assert RowTidy(RowOf(t, b));
      RolesRow(t, a, roles, b);
    }
  }

  lemma RolesGrantTidy(t: Tables, a: nat, roles: seq<string>)
    requires RowsTidy(t)
    ensures RowsTidy(ReplaceAccountRoles(t, a, roles).0)
  {
    hide Put, CleanRoles, RoleTidy, Elems, RowsTidy;
    CleanTidy(roles);
    PutRolesTidy(t, a, Elems(CleanRoles(roles)));
    PutRolesTidy(t, a, {});
  }

  lemma UsersGrantTidy(t: Tables, a: nat, users: seq<int>)
    requires RowsTidy(t)
    ensures RowsTidy(ReplaceAccountUsers(t, a, users).0)
  {
    hide RowsTidy, Put, CleanIds, Accepted, Elems;
    SameTidyRows(t, ReplaceAccountUsers(t, a, users).0);
  }

  lemma GroupsGrantTidy(t: Tables, a: nat, groups: seq<int>)
    requires RowsTidy(t)
    ensures RowsTidy(ReplaceAccountGroups(t, a, groups).0)
  {
    hide RowsTidy, Put, CleanIds, Accepted, Elems;
    SameTidyRows(t, ReplaceAccountGroups(t, a, groups).0);
  }

  lemma AccessTidy(t: Tables, a: nat, roles: seq<string>, users: seq<int>, groups: seq<int>)
    requires RowsTidy(t)
    ensures RowsTidy(SetAccountAccess(t, a, roles, users, groups).0)
  {
    hide RowsTidy, ReplaceAccountRoles, ReplaceAccountUsers, ReplaceAccountGroups;
    RolesGrantTidy(t, a, roles);
    var t1 := ReplaceAccountRoles(t, a, roles).0;
    UsersGrantTidy(t1, a, users);
    GroupsGrantTidy(ReplaceAccountUsers(t1, a, users).0, a, groups);
  }

  // ----- Sharing -----

  lemma {:induction false} NeverOwner(owner: nat, users: seq<int>)
    ensures owner !in Recipients(owner, users)
  {
    NotAmong(owner, users);
    CleanIdsAre(WithoutOwner(owner, users));
  }

  lemma {:induction false} NotAmong(owner: nat, users: seq<int>)
    ensures owner !in WithoutOwner(owner, users)
  {
    if users != [] {
      NotAmong(owner, users[..|users| - 1]);
    }
  }

  lemma SharedOwner(t: Tables, owner: nat, username: string, password: string)
    requires CanShare(t, owner, username, password)
    ensures var account := SharedAccount(t, owner, username, password);
      account.Some? && account.value.restricted && account.value.owner == Some(owner)
  {
    hide FindAccount;
  }

  /** A share gives a row an owner and recipients other than him, refused or not. */
  lemma ShareTidy(t: Tables, owner: nat, username: string, password: string, aliases: seq<string>,
                  users: seq<int>, roles: seq<string>, groups: seq<int>)
    requires Valid(t) && owner in t.users && RowsTidy(t)
    ensures RowsTidy(ShareLocalAccount(t, owner, username, password, aliases, users, roles, groups).0)
  {
    hide Valid, RowOf, ShareLocalAccount, CleanRoles, Recipients, Accepted, RoleTidy, RowsTidy, AccountKey, CanShare, SharedAccount, Sharable,
         CleanIds, AccountFor;
    var (t', result) := ShareLocalAccount(t, owner, username, password, aliases, users, roles, groups);
    NeverOwner(owner, users);
    CleanTidy(roles);
    AcceptedAre(Recipients(owner, users), Sharable(t));
    if result.Ok? {
      ShareStep(t, owner, username, password, aliases, users, roles, groups);
      OneTidy(t, t', result.value.account);
    } else {
      var name := Trim(username);
      RefusedShareStep(t, owner, username, password, aliases, users, roles, groups);
      if name != "" && CanShare(t, owner, name, password) {
        SharedOwner(t, owner, name, password);
        TidyAt(t, AccountFor(t, name));
        OneTidy(t, t', AccountFor(t, name)) by { OneRowOthers(t, t', AccountFor(t, name), AccountKey(name)); }
      }
    }
  }

  lemma TidyAt(t: Tables, a: nat)
    requires RowsTidy(t)
    ensures RowTidy(RowOf(t, a))
  {
  }

  lemma OneRowOthers(t: Tables, t': Tables, a: nat, key: string)
    requires OneRow(t, t', a, key)
    ensures forall b: nat :: b != a ==> RowOf(t', b) == RowOf(t, b)
  {
  }

  // ----- Groups -----

  lemma WebRoleNormal(webRole: string)
    ensures match NormalizeWebRole(webRole) case None => true case Some(r) => NormalizeWebRole(r) == Some(r)
  {
    TrimOfTrimmed("admin");
    TrimOfTrimmed("readonly");
    assert Lower("admin") == "admin" && Lower("readonly") == "readonly" && Lower(Trim("")) == "";
  }

  lemma {:induction false} CommandsKnown(commands: seq<string>)
    ensures match NormalizeCommands(commands) case None => true case Some(c) => c <= KNOWN_COMMANDS
  {
    hide Trim, Lower;
    if commands != [] {
      CommandsKnown(commands[..|commands| - 1]);
    }
  }

  lemma CreateTidy(t: Tables, name: string, description: string, webRole: string, commands: seq<string>)
    requires GroupsTidy(t.groups)
    ensures GroupsTidy(CreateGroup(t, name, description, webRole, commands).0.groups)
  {
    WebRoleNormal(webRole);
    CommandsKnown(commands);
    hide NormalizeWebRole, NormalizeCommands, FindGroup, IsDefaultGroupName, Trim, NameTaken;
  }

  lemma UpdateTidy(t: Tables, g: nat, name: string, description: string, webRole: string, commands: seq<string>)
    requires GroupsTidy(t.groups)
    ensures GroupsTidy(UpdateGroupMeta(t, g, name, description, webRole, commands).0.groups)
  {
    WebRoleNormal(webRole);
    WebRoleNormal("");
    CommandsKnown(commands);
    CommandsKnown(["sso", "whoami"]);
    hide NormalizeWebRole, NormalizeCommands, IsDefaultGroupName, Trim, NameTaken;
  }

  lemma EnsureTidy(t: Tables)
    requires GroupsTidy(t.groups)
    ensures GroupsTidy(EnsureDefaultGroup(t).0.groups)
  {
    hide FindGroup, CreateGroup, NameTaken, DefaultGroupDescription;
    CreateTidy(t, DEFAULT_GROUP_NAME, DefaultGroupDescription(), "", ["sso", "whoami"]);
    NoWebRole();
    hide NormalizeWebRole;
  }

  lemma NoWebRole()
    ensures NormalizeWebRole("") == Some("")
  {
    assert Lower(Trim("")) == "";
  }

  lemma MembershipTidy(t: Tables, g: nat, users: seq<int>, roles: seq<string>)
    requires RolesTidy(t.memberRoles)
    ensures RolesTidy(ReplaceGroupMembership(t, g, users, roles).0.memberRoles)
  {
    hide CleanRoles, CleanIds, RoleTidy;
    CleanTidy(roles);
  }

  lemma AddRoleTidy(t: Tables, g: nat, role: string)
    requires RolesTidy(t.memberRoles)
    ensures RolesTidy(AddGroupRole(t, g, role).0.memberRoles)
  {
    hide Trim;
    TrimTrims(role);
  }
}
