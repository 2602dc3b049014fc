// Which stores can be carried over by a backup, and onto which hosts.
module BackupHosts {
  import opened BackupExport
  import opened BackupGroups
  import opened BackupNames
  import opened BackupOps
  import opened BackupStage
  import opened BackupUsers
  import opened Roles
  import opened StoreOps
  import opened StoreRuns
  import opened StoreTidy
  import opened DefaultGroup
  import opened Tables
  import opened Text
  import opened Wrappers

  ghost predicate UserGood(user: User) {
    user.discordId != "" && IsTrimmed(user.discordId) && IsClean(user.roles)
  }

  ghost predicate RolesGood(roles: set<string>) {
    forall role :: role in roles ==> role != "" && IsTrimmed(role)
  }

  /** A restricted account has an owner, who is not among its recipients. */
  ghost predicate AccountGood(s: Tables, a: nat) {
    && a in s.accounts
    && s.accounts[a].username != "" && IsTrimmed(s.accounts[a].username)
    && RolesGood(Of(s.accessRoles, a))
    && (s.accounts[a].restricted ==>
          s.accounts[a].owner.Some? && s.accounts[a].owner.value !in Of(s.shares, a))
  }

  /** Not a restricted account with a revoked recipient. */
  predicate LiveAccount(s: Tables, a: nat) {
    a in s.accounts && s.accounts[a].restricted ==> Of(s.shares, a) <= Sharable(s)
  }

  ghost predicate GroupGood(s: Tables, g: nat) {
    && g in s.groups
    && NormalizeWebRole(s.groups[g].webRole) == Some(s.groups[g].webRole)
    && s.groups[g].commands <= KNOWN_COMMANDS
    && RolesGood(Of(s.memberRoles, g))
    && (IsDefaultGroupName(s.groups[g].name) ==>
          s.groups[g].name == DEFAULT_GROUP_NAME && s.groups[g].webRole == "" && s.groups[g].commands == KNOWN_COMMANDS)
  }

  /** What a store must be like for its export to say everything. */
  ghost predicate Restorable(s: Tables) {
    && Valid(s) && GroupsDistinct(s.groups)
    && (forall u :: u in s.users ==> UserGood(s.users[u]))
    && (forall a :: a in s.accounts ==> AccountGood(s, a))
    && (forall g :: g in s.groups ==> GroupGood(s, g))
  }

  /** What no store method sees to: ids and role lists as the caller gave them, usernames that
      are trimmed, group names that differ in more than case, and a default group ensured. */
  ghost predicate WellFilled(s: Tables) {
    && (forall u :: u in s.users ==> UserGood(s.users[u]))
    && (forall a :: a in s.accounts ==> s.accounts[a].username != "" && IsTrimmed(s.accounts[a].username))
    && GroupsDistinct(s.groups)
    && exists d :: LockedAt(s.groups, d)
  }

  /** For a store that a run of its methods can reach, the rest of Restorable holds. */
  lemma SoundIsRestorable(s: Tables)
    requires Sound(s) && WellFilled(s)
    ensures Restorable(s)
  {
    hide Valid, WellNamed, GroupsDistinct, UserGood, IsTrimmed, NormalizeWebRole, IsDefaultGroupName, RoleTidy;
    var d :| LockedAt(s.groups, d);
    forall a | a in s.accounts
      ensures AccountGood(s, a)
    {
      TidyAt(s, a);
      TidyAccount(s, a);
    }
    forall g | g in s.groups
      ensures GroupGood(s, g)
    {
      MemberRolesTidy(s, g);
    }
  }

  lemma TidyAccount(s: Tables, a: nat)
    requires a in s.accounts && RowTidy(RowOf(s, a))
    ensures RolesGood(Of(s.accessRoles, a))
    ensures s.accounts[a].restricted ==> s.accounts[a].owner.Some? && s.accounts[a].owner.value !in Of(s.shares, a)
  {
    hide Of, NamesOf, TagsOf;
    var row := RowOf(s, a);
    assert row.roles == Of(s.accessRoles, a) && row.shares == Of(s.shares, a);
    forall role | role in row.roles
      ensures role != "" && IsTrimmed(role)
    {
      assert RoleTidy(role);
    }
  }

  lemma MemberRolesTidy(s: Tables, g: nat)
    requires RolesTidy(s.memberRoles)
    ensures RolesGood(Of(s.memberRoles, g))
  {
    forall role | role in Of(s.memberRoles, g)
      ensures role != "" && IsTrimmed(role)
    {
      InOf(s.memberRoles, g, role);
      assert RoleTidy((g, role).1);
    }
  }

  /** The password a row carries arrives, or is there already. */
  ghost predicate AccountFits(s: Tables, t: Tables, withPasswords: bool, a: nat) {
    && a in s.accounts
    && var account, key := s.accounts[a], AccountKey(s.accounts[a].username);
       var carried := if withPasswords then account.password else "";
       if key in t.accountIds && t.accountIds[key] in t.accounts then
         var held := t.accounts[t.accountIds[key]];
         && held.restricted == account.restricted
         && (Trim(carried) == "" ==> held.password == account.password)
         && (account.restricted ==> SameUser(s, t, account.owner, held.owner))
       else Trim(carried) != ""
  }

  ghost predicate SameUser(s: Tables, t: Tables, u: Option<nat>, v: Option<nat>) {
    && u.Some? && u.value in s.users && v.Some? && v.value in t.users
    && s.users[u.value].discordId == t.users[v.value].discordId
  }

  /** A name that both hosts have belongs to the account of the same username. */
  ghost predicate NamesAgree(names: map<string, Named>, s: Tables, names': map<string, Named>, t: Tables) {
    forall k :: k in names && k in names' && names[k].account in s.accounts && names'[k].account in t.accounts ==>
      AccountKey(s.accounts[names[k].account].username) == AccountKey(t.accounts[names'[k].account].username)
  }

  /** Hosts an export of s can be imported on: the same one, an empty one, or one that does not
      contradict it. */
  ghost predicate Compatible(s: Tables, t: Tables, withPasswords: bool) {
    && Valid(t) && GroupsDistinct(t.groups)
    && (forall a :: a in s.accounts ==> AccountFits(s, t, withPasswords, a))
    && NamesAgree(s.aliases, s, t.aliases, t) && NamesAgree(s.characters, s, t.characters, t)
  }

  // ----- The rows of an export are good rows -----

  lemma ExportedUserRow(s: Tables, withPasswords: bool, bak: Backup, index: Index, i: nat)
    requires Restorable(s) && Exports(s, withPasswords, bak, index) && i < |bak.users|
    ensures |index.users| == |bak.users| && index.users[i] in s.users
    ensures bak.users[i].discordId != "" && IsTrimmed(bak.users[i].discordId)
    ensures bak.users[i].discordId == s.users[index.users[i]].discordId && UserOfRow(bak.users[i]) == s.users[index.users[i]]
  {
    hide Valid, GroupsDistinct, AccountGood, GroupGood, ExportsAccount, ExportsGroup, CleanRoles, IsTrimmed, IsClean;
    var u := index.users[i];
    assert u in Elems(index.users);
    assert ExportsUser(s, u, bak.users[i]) && UserGood(s.users[u]);
    CleanRolesFixed(s.users[u].roles);
  }

  /** Every user has a row. */
  lemma UserHasRow(s: Tables, withPasswords: bool, bak: Backup, index: Index, u: nat) returns (i: nat)
    requires Restorable(s) && Exports(s, withPasswords, bak, index) && u in s.users
    ensures i < |bak.users| && i < |index.users| && index.users[i] == u
  {
    hide Valid, GroupsDistinct, AccountGood, GroupGood, ExportsUser, ExportsAccount, ExportsGroup, IsTrimmed, IsClean;
    assert UserGood(s.users[u]);
    assert u in Listed(s);
    assert u in Elems(index.users);
    i :| 0 <= i < |index.users| && index.users[i] == u;
  }

  lemma ExportedUserRows(s: Tables, withPasswords: bool, bak: Backup, index: Index)
    requires Restorable(s) && Exports(s, withPasswords, bak, index)
    ensures UserRowsGood(bak.users) && |index.users| == |bak.users|
    ensures RowIds(bak.users) == s.userIds.Keys
    ensures forall u :: u in s.users ==> exists i :: 0 <= i < |bak.users| && index.users[i] == u && UserOfRow(bak.users[i]) == s.users[u]
  {
    hide Restorable, Valid, ExportsUser, ExportsAccount, ExportsGroup, UserOfRow, IsTrimmed;
    UsersIndexedIn(s);
    forall i | 0 <= i < |bak.users|
      ensures bak.users[i].discordId != "" && IsTrimmed(bak.users[i].discordId)
      ensures index.users[i] in s.users && bak.users[i].discordId == s.users[index.users[i]].discordId
      ensures UserOfRow(bak.users[i]) == s.users[index.users[i]]
    {
      ExportedUserRow(s, withPasswords, bak, index, i);
    }
    forall u | u in s.users
      ensures exists i :: 0 <= i < |bak.users| && index.users[i] == u && UserOfRow(bak.users[i]) == s.users[u]
      ensures s.users[u].discordId in RowIds(bak.users)
    {
      var i := UserHasRow(s, withPasswords, bak, index, u);
      assert bak.users[i].discordId == s.users[u].discordId;
    }
    assert RowIds(bak.users) == s.userIds.Keys;
  }

  lemma UsersIndexedIn(s: Tables)
    requires Restorable(s)
    ensures UsersIndexed(s.users, s.userIds, s.nextUser)
  {
  }

  lemma TextsOfNames(names: map<string, Named>, a: nat, texts: seq<string>, values: set<string>)
    requires NamesFiled(names) && Lists(texts, values) && values <= NamesOf(names, a)
    ensures TextsGood(texts)
    ensures forall i :: 0 <= i < |texts| ==> Lower(texts[i]) in names && names[Lower(texts[i])].account == a
  {
    forall i | 0 <= i < |texts|
      ensures Lower(texts[i]) in names && names[Lower(texts[i])] == Named(texts[i], a)
      ensures texts[i] != "" && IsTrimmed(texts[i])
    {
      assert texts[i] in Elems(texts);
      InNamesOf(names, a, texts[i]);
    }
  }

  lemma TextsOfTags(tags: map<(string, nat), string>, a: nat, texts: seq<string>)
    requires TagsFiled(tags) && Lists(texts, TagsOf(tags, a))
    ensures TextsGood(texts)
  {
    forall i | 0 <= i < |texts|
      ensures (Lower(texts[i]), a) in tags && tags[(Lower(texts[i]), a)] == texts[i]
      ensures texts[i] != "" && IsTrimmed(texts[i])
    {
      assert texts[i] in Elems(texts);
      InTagsOf(tags, a, texts[i]);
    }
  }

  lemma NamesApart(names: map<string, Named>, a: nat, b: nat, xs: seq<string>, ys: seq<string>)
    requires a != b
    requires forall i :: 0 <= i < |xs| ==> Lower(xs[i]) in names && names[Lower(xs[i])].account == a
    requires forall i :: 0 <= i < |ys| ==> Lower(ys[i]) in names && names[Lower(ys[i])].account == b
    ensures Apart(xs, ys)
  {
    hide Lower;
  }

  /** The names of an exported row are good, and are what the store files under its account. */
  lemma ExportedNames(s: Tables, withPasswords: bool, a: nat, row: AccountRow)
    requires Valid(s) && ExportsAccount(s, withPasswords, a, row)
    ensures TextsGood(row.aliases) && TextsGood(row.characters) && TextsGood(row.tags) && NoneIs(row.aliases, Some(row.username))
    ensures forall i :: 0 <= i < |row.aliases| ==> Lower(row.aliases[i]) in s.aliases && s.aliases[Lower(row.aliases[i])].account == a
    ensures forall i :: 0 <= i < |row.characters| ==>
      Lower(row.characters[i]) in s.characters && s.characters[Lower(row.characters[i])].account == a
  {
    hide UsersIndexed, AccountsIndexed, OwnersIn, GroupsNumbered, KeysIn, ValuesIn, NamesFiled, TagsFiled, NamesOf, TagsOf, Of, TextsGood, DiscordIds, NamesOfGroups, Usernames;
    TextsOfNames(s.aliases, a, row.aliases, OtherNames(NamesOf(s.aliases, a), s.accounts[a].username));
    TextsOfNames(s.characters, a, row.characters, NamesOf(s.characters, a));
    TextsOfTags(s.tags, a, row.tags);
    forall i | 0 <= i < |row.aliases|
      ensures !EqualFold(row.aliases[i], row.username)
    {
      assert row.aliases[i] in Elems(row.aliases);
    }
  }

  lemma ExportedRowsApart(s: Tables, withPasswords: bool, bak: Backup, index: Index)
    requires Valid(s) && Exports(s, withPasswords, bak, index)
    ensures RowsApart(bak.accounts)
    ensures RowKeys(bak.accounts) == s.accountIds.Keys
  {
    hide Valid, AccountKey, ExportsUser, ExportsAccount, ExportsGroup, Apart, Lists;
    forall i, j | 0 <= i < |bak.accounts| && 0 <= j < |bak.accounts| && i != j
      ensures AccountKey(bak.accounts[i].username) != AccountKey(bak.accounts[j].username)
      ensures Apart(bak.accounts[i].aliases, bak.accounts[j].aliases)
      ensures Apart(bak.accounts[i].characters, bak.accounts[j].characters)
    {
      ListedApart(index.accounts, s.accounts.Keys, i, j);
      TwoRowsApart(s, withPasswords, index.accounts[i], index.accounts[j], bak.accounts[i], bak.accounts[j]);
    }
    RowsCoverKeys(s, withPasswords, bak, index);
  }

  lemma ListedApart(xs: seq<nat>, values: set<nat>, i: nat, j: nat)
    requires Lists(xs, values) && i < |xs| && j < |xs| && i != j
    ensures xs[i] != xs[j]
  {
  }

  lemma TwoRowsApart(s: Tables, withPasswords: bool, a: nat, b: nat, x: AccountRow, y: AccountRow)
    requires Valid(s) && a != b && ExportsAccount(s, withPasswords, a, x) && ExportsAccount(s, withPasswords, b, y)
    ensures AccountKey(x.username) != AccountKey(y.username)
    ensures Apart(x.aliases, y.aliases) && Apart(x.characters, y.characters)
  {
    hide Valid, AccountKey, Apart, Lower, TextsGood, NoneIs, Lists, Of, NamesOf, TagsOf, DiscordIds, NamesOfGroups, OtherNames;
    IndexedByKey(s, a);
    IndexedByKey(s, b);
    ExportedNames(s, withPasswords, a, x);
    ExportedNames(s, withPasswords, b, y);
    NamesApart(s.aliases, a, b, x.aliases, y.aliases);
    NamesApart(s.characters, a, b, x.characters, y.characters);
  }

  lemma RowsCoverKeys(s: Tables, withPasswords: bool, bak: Backup, index: Index)
    requires Valid(s) && Exports(s, withPasswords, bak, index)
    ensures RowKeys(bak.accounts) == s.accountIds.Keys
  {
    hide Valid, AccountKey, ExportsUser, ExportsGroup, Of, NamesOf, TagsOf, DiscordIds, NamesOfGroups, OtherNames;
    forall i | 0 <= i < |bak.accounts|
      ensures AccountKey(bak.accounts[i].username) in s.accountIds
    {
      assert ExportsAccount(s, withPasswords, index.accounts[i], bak.accounts[i]);
      IndexedByKey(s, index.accounts[i]);
    }
    forall k | k in s.accountIds
      ensures k in RowKeys(bak.accounts)
    {
      IndexedExists(s, k);
      KeyOfIndexed(s, k);
      assert s.accountIds[k] in Elems(index.accounts);
      var i :| 0 <= i < |index.accounts| && index.accounts[i] == s.accountIds[k];
      assert ExportsAccount(s, withPasswords, index.accounts[i], bak.accounts[i]);
      assert AccountKey(bak.accounts[i].username) == k;
    }
  }

  lemma IndexedByKey(s: Tables, a: nat)
    requires Valid(s) && a in s.accounts
    ensures AccountKey(s.accounts[a].username) in s.accountIds && s.accountIds[AccountKey(s.accounts[a].username)] == a
    ensures a > 0
  {
  }

  lemma KeyOfIndexed(s: Tables, k: string)
    requires Valid(s) && k in s.accountIds && s.accountIds[k] in s.accounts
    ensures AccountKey(s.accounts[s.accountIds[k]].username) == k
  {
  }
}
