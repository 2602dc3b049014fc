// Import after export: on every compatible host the store's users, accounts and groups are
// there again, whatever order the rows are in.
module BackupRoundTrip {
  import opened Access
  import opened BackupAccounts
  import opened BackupExport
  import opened BackupGroups
  import opened BackupHosts
  import opened BackupNames
  import opened BackupOps
  import opened BackupRestored
  import opened BackupStage
  import opened BackupUsers
  import opened Roles
  import opened StoreOps
  import opened Tables
  import opened Text
  import opened Wrappers

  // ----- Users -----

  lemma UsersCarried(s: Tables, t: Tables, withPasswords: bool, bak: Backup, index: Index)
    requires Restorable(s) && Valid(t) && Exports(s, withPasswords, bak, index)
    ensures var t1 := ImportUsers(t, bak.users);
      Valid(t1) && UsersRestored(s, t1) && UsersOnly(t, t1, s.userIds.Keys)
  {
    hide Valid, Restorable, Exports, UserOfRow, UsersOnly, UserRowsGood, ImportUsers;
    ExportedUserRows(s, withPasswords, bak, index);
    ImportUsersAre(t, bak.users);
    var t1 := ImportUsers(t, bak.users);
    forall u | u in s.users
      ensures UserRestored(s, t1, u)
    {
      var i :| 0 <= i < |bak.users| && index.users[i] == u && UserOfRow(bak.users[i]) == s.users[u];
      assert UserPlaced(t1, bak.users[i]);
      UserOfRowId(bak.users[i]);
    }
  }

  /** The users stage leaves every account's row alone. */
  lemma AccountsAside(t: Tables, t1: Tables, ids: set<string>)
    requires UsersOnly(t, t1, ids)
    ensures forall b: nat :: RowOf(t1, b) == RowOf(t, b)
    ensures t1.accountIds == t.accountIds && t1.accounts == t.accounts && t1.nextAccount == t.nextAccount
    ensures t1.aliases == t.aliases && t1.characters == t.characters && t1.groups == t.groups
    ensures t1.nextGroup == t.nextGroup
  {
  }

  // ----- Accounts -----

  lemma NamesFit(s: Tables, t: Tables, names: map<string, Named>, names': map<string, Named>, a: nat, texts: seq<string>)
    requires Valid(t) && a in s.accounts && NamesAgree(names, s, names', t) && NamesRefer(names', t.accounts.Keys)
    requires s.accounts[a].username != "" && IsTrimmed(s.accounts[a].username)
    requires forall i :: 0 <= i < |texts| ==> Lower(texts[i]) in names && names[Lower(texts[i])].account == a
    ensures FreeFor(texts, names', AccountFor(t, s.accounts[a].username))
  {
    hide Valid, AccountKey, FindAccount, Lower, IsTrimmed, AccountFor;
    var username := s.accounts[a].username;
    KeyIndexed(t, username);
    forall i | 0 <= i < |texts| && Lower(texts[i]) in names'
      ensures names'[Lower(texts[i])].account == AccountFor(t, username)
    {
      var b := names'[Lower(texts[i])].account;
      IndexedByKey(t, b);
    }
  }

  lemma RowNamesFit(s: Tables, t: Tables, t1: Tables, withPasswords: bool, a: nat, row: AccountRow)
    requires Restorable(s) && Compatible(s, t, withPasswords) && ExportsAccount(s, withPasswords, a, row)
    requires UsersOnly(t, t1, s.userIds.Keys)
    ensures NamesUsable(t1, row)
  {
    hide NamesAgree, AccountKey, Lower, IsTrimmed, FreeFor, TextsGood, NoneIs, UsersIndexed, AccountsIndexed, OwnersIn, GroupsNumbered,
         NamesFiled, TagsFiled, KeysIn, ValuesIn, Of, NamesOf, TagsOf, Lists, GroupsDistinct, AccountFits, UserGood, GroupGood, RolesGood,
         NamesRefer, TagsRefer;
    assert AccountGood(s, a);
    AccountsAside(t, t1, s.userIds.Keys);
    ExportedNames(s, withPasswords, a, row);
    NamesFit(s, t, s.aliases, t.aliases, a, row.aliases);
    NamesFit(s, t, s.characters, t.characters, a, row.characters);
  }

  /** The grants in an exported row are the account's. */
  lemma ExportedGrants(s: Tables, t1: Tables, withPasswords: bool, a: nat, row: AccountRow)
    requires Restorable(s) && ExportsAccount(s, withPasswords, a, row) && Valid(t1) && UsersRestored(s, t1)
    ensures Elems(CleanRoles(row.roles)) == Of(s.accessRoles, a)
    ensures Elems(Lookup(Directory(t1), row.userIds)) == UsersIn(s, t1, Of(s.accessUsers, a))
    ensures Elems(CleanIds(Lookup(Directory(t1), row.userIds))) == UsersIn(s, t1, Of(s.accessUsers, a))
    ensures row.restricted ==> Elems(Lookup(Directory(t1), row.sharedIds)) == UsersIn(s, t1, Of(s.shares, a))
  {
    hide UsersIndexed, AccountsIndexed, OwnersIn, GroupsNumbered, NamesFiled, TagsFiled, NamesOf, TagsOf, GroupsDistinct, GroupGood,
         NamesRefer, TagsRefer, UserRestored, UserGood, DiscordIds, Lookup, CleanIds, CleanRoles, UsersIn, IsTrimmed, Directory;
    assert AccountGood(s, a);
    forall i | 0 <= i < |row.roles|
      ensures row.roles[i] != "" && IsTrimmed(row.roles[i])
    {
      assert row.roles[i] in Elems(row.roles);
    }
    CleanRolesFixed(row.roles);
    LookupExported(s, t1, row.userIds, Of(s.accessUsers, a));
    if row.restricted {
      LookupExported(s, t1, row.sharedIds, Of(s.shares, a));
    }
    DirectoryGood(t1);
    LookupKnown(t1, Directory(t1), row.userIds);
    PositiveIds(Lookup(Directory(t1), row.userIds));
  }

  lemma OwnerListed(s: Tables, t1: Tables, withPasswords: bool, a: nat, row: AccountRow)
    requires Restorable(s) && ExportsAccount(s, withPasswords, a, row) && row.restricted && UsersRestored(s, t1)
    ensures var owner := s.accounts[a].owner;
      && owner.Some? && owner.value in s.users && row.ownerId == s.users[owner.value].discordId
      && row.ownerId in Directory(t1) && row.ownerId != "" && IsTrimmed(row.ownerId)
      && Directory(t1)[row.ownerId] == UserIn(s, t1, owner.value)
  {
    hide UsersIndexed, AccountsIndexed, GroupsNumbered, NamesFiled, TagsFiled, NamesOf, TagsOf, GroupsDistinct, GroupGood,
         NamesRefer, TagsRefer, DiscordIds, IsTrimmed, KeysIn, ValuesIn, Lists, IsClean, RolesGood;
    assert AccountGood(s, a);
    var owner := s.accounts[a].owner.value;
    assert UserGood(s.users[owner]) && UserRestored(s, t1, owner);
  }

  /** The recipients of a restricted account are found, the owner not among them, and can all
      be shared with exactly when none is revoked. */
  lemma RecipientsFit(s: Tables, t1: Tables, withPasswords: bool, a: nat, row: AccountRow)
    requires Restorable(s) && ExportsAccount(s, withPasswords, a, row) && row.restricted && Valid(t1) && UsersRestored(s, t1)
    ensures s.accounts[a].owner.Some?
    ensures var r := Recipients(UserIn(s, t1, s.accounts[a].owner.value), Lookup(Directory(t1), row.sharedIds));
      Elems(r) == UsersIn(s, t1, Of(s.shares, a)) && (Elems(r) <= Sharable(t1) <==> LiveAccount(s, a))
  {
    hide AccountsIndexed, GroupsNumbered, NamesFiled, TagsFiled, NamesOf, TagsOf, GroupsDistinct, GroupGood, UsersIndexed, OwnersIn,
         NamesRefer, TagsRefer, DiscordIds, IsTrimmed, KeysIn, Lists, IsClean, RolesGood, Lookup, Recipients, Directory, UserIn;
    assert AccountGood(s, a);
    var owner, us := s.accounts[a].owner.value, Of(s.shares, a);
    OwnerListed(s, t1, withPasswords, a, row);
    ExportedGrants(s, t1, withPasswords, a, row);
    DirectoryGood(t1);
    LookupKnown(t1, Directory(t1), row.sharedIds);
    RecipientsAre(UserIn(s, t1, owner), Lookup(Directory(t1), row.sharedIds));
    forall u | u in us
      ensures UserIn(s, t1, u) != UserIn(s, t1, owner)
      ensures UserIn(s, t1, u) in Sharable(t1) <==> u in Sharable(s)
    {
      SharedUserKnown(s, a, u);
      assert UserRestored(s, t1, u);
      if UserIn(s, t1, u) == UserIn(s, t1, owner) {
        UserInInjective(s, t1, u, owner);
      }
    }
    forall u | u in us
      ensures UserIn(s, t1, u) in UsersIn(s, t1, us)
    {
    }
  }

  lemma SharedUserKnown(s: Tables, a: nat, u: nat)
    requires Valid(s) && u in Of(s.shares, a)
    ensures u in s.users
  {
  }

  lemma ShareFits(s: Tables, t: Tables, t1: Tables, withPasswords: bool, a: nat, row: AccountRow)
    requires Restorable(s) && Compatible(s, t, withPasswords) && ExportsAccount(s, withPasswords, a, row) && row.restricted
    requires Valid(t1) && UsersRestored(s, t1) && UsersOnly(t, t1, s.userIds.Keys)
    ensures ShareUsable(t1, Directory(t1), row)
    ensures SharedAccount(t1, Directory(t1)[row.ownerId], row.username, row.password) == CarriedAccount(s, t, t1, a)
  {
    hide Lists, Of, DiscordIds, NamesOfGroups, NamesOf, TagsOf, Lookup, Recipients, IsTrimmed, AccountKey, Trim, UsersIn, GroupsDistinct,
         GroupGood, UserGood, RolesGood, NamesAgree, Lower, FindAccount, Sharable;
    hide Valid;
    assert AccountGood(s, a) && AccountFits(s, t, withPasswords, a);
    AccountsAside(t, t1, s.userIds.Keys);
    OwnerListed(s, t1, withPasswords, a, row);
    RecipientsFit(s, t1, withPasswords, a, row);
    KeyIndexed(t1, row.username);
    KeyIndexed(t, row.username);
    BlankPassword();
    if Held(s, t, a).Some? {
      SameOwner(s, t, t1, s.accounts[a].owner, t.accounts[Held(s, t, a).value].owner);
    }
  }

  lemma BlankPassword()
    ensures Trim("") == ""
  {
  }

  lemma SameOwner(s: Tables, t: Tables, t1: Tables, u: Option<nat>, v: Option<nat>)
    requires SameUser(s, t, u, v) && Valid(t) && UsersOnly(t, t1, s.userIds.Keys) && UsersRestored(s, t1)
    ensures v == Some(UserIn(s, t1, u.value))
  {
    assert UserRestored(s, t1, u.value);
  }

  lemma OpenFits(s: Tables, t: Tables, t1: Tables, withPasswords: bool, a: nat, row: AccountRow)
    requires Restorable(s) && Compatible(s, t, withPasswords) && ExportsAccount(s, withPasswords, a, row) && !row.restricted
    requires Valid(t1) && UsersOnly(t, t1, s.userIds.Keys)
    ensures OpenUsable(t1, row) && Some(OpenAccount(t1, row)) == CarriedAccount(s, t, t1, a)
  {
    hide Lists, Of, DiscordIds, NamesOfGroups, NamesOf, TagsOf, Lookup, Recipients, IsTrimmed, AccountKey, Trim, UsersIn, GroupsDistinct,
         GroupGood, UserGood, RolesGood, NamesAgree, Lower, FindAccount, Sharable;
    hide Valid;
    assert AccountGood(s, a) && AccountFits(s, t, withPasswords, a);
    AccountsAside(t, t1, s.userIds.Keys);
    KeyIndexed(t1, row.username);
    KeyIndexed(t, row.username);
    BlankPassword();
  }

  /** Every exported row can be used after the users stage, and leaves the carried account. */
  lemma RowFits(s: Tables, t: Tables, t1: Tables, withPasswords: bool, a: nat, row: AccountRow)
    requires Restorable(s) && Compatible(s, t, withPasswords) && ExportsAccount(s, withPasswords, a, row)
    requires Valid(t1) && UsersRestored(s, t1) && UsersOnly(t, t1, s.userIds.Keys)
    ensures RowUsable(t1, Directory(t1), row)
    ensures RowAfter(t1, Directory(t1), row) == RestoredRow(s, t, t1, a, row.sharedIds, LinksBefore(s, t, a))
  {
    hide Of, DiscordIds, NamesOfGroups, NamesOf, TagsOf, Lookup, Recipients, IsTrimmed, AccountKey, Trim, GroupsDistinct, CleanIds, CleanRoles,
         GroupGood, UserGood, RolesGood, NamesAgree, Lower, FindAccount, Sharable, NamesUsable, ShareUsable, OpenUsable, Directory,
         SharedAccount, OpenAccount, CarriedAccount, UsersIn, OwnName, OtherNames, UsersOnly, UserIn, AccountFits, Merged, BeforeRevoked,
         IdUsers, Accepted, LiveAccount;
    hide Valid;
    assert AccountGood(s, a);
    AccountsAside(t, t1, s.userIds.Keys);
    RowNamesFit(s, t, t1, withPasswords, a, row);
    ExportedGrants(s, t1, withPasswords, a, row);
    KeyIndexed(t1, row.username);
    RowBefore(s, t, t1, a);
    if row.restricted {
      ShareFits(s, t, t1, withPasswords, a, row);
      OwnerListed(s, t1, withPasswords, a, row);
      RecipientsFit(s, t1, withPasswords, a, row);
      SharesHalt(s, t1, withPasswords, a, row);
    } else {
      OpenFits(s, t, t1, withPasswords, a, row);
      OpenIsLive(s, a);
    }
  }

  lemma OpenIsLive(s: Tables, a: nat)
    requires a in s.accounts && !s.accounts[a].restricted
    ensures LiveAccount(s, a)
  {
  }

  lemma SharesHalt(s: Tables, t1: Tables, withPasswords: bool, a: nat, row: AccountRow)
    requires Restorable(s) && ExportsAccount(s, withPasswords, a, row) && row.restricted && Valid(t1) && UsersRestored(s, t1)
    requires row.ownerId in Directory(t1)
    ensures Elems(Accepted(Recipients(Directory(t1)[row.ownerId], Lookup(Directory(t1), row.sharedIds)), Sharable(t1)))
         == UsersIn(s, t1, IdUsers(s, BeforeRevoked(s, row.sharedIds)))
  {
    hide AccountsIndexed, GroupsNumbered, NamesFiled, TagsFiled, NamesOf, TagsOf, GroupsDistinct, GroupGood, UsersIndexed, OwnersIn,
         NamesRefer, TagsRefer, DiscordIds, IsTrimmed, KeysIn, Lists, IsClean, RolesGood, Lookup, Recipients, Directory, UserIn, Accepted,
         UserGood, BeforeRevoked, IdUsers, Sharable;
    assert AccountGood(s, a);
    OwnerListed(s, t1, withPasswords, a, row);
    HaltedShares(s, t1, s.accounts[a].owner.value, Of(s.shares, a), row.sharedIds);
  }

  lemma RowBefore(s: Tables, t: Tables, t1: Tables, a: nat)
    requires Restorable(s) && a in s.accounts && Valid(t1) && UsersOnly(t, t1, s.userIds.Keys)
    ensures RowOf(t1, AccountFor(t1, s.accounts[a].username)) == HeldRow(s, t, a)
  {
    hide Of, NamesOf, TagsOf, AccountKey, FindAccount, IsTrimmed, GroupsDistinct, GroupGood, UserGood, RolesGood, Valid;
    assert AccountGood(s, a);
    AccountsAside(t, t1, s.userIds.Keys);
    KeyIndexed(t1, s.accounts[a].username);
    if Held(s, t, a).None? {
      BareRow(t1, t1.nextAccount);
    }
  }

  /** The account of row i as it is before the groups stage. */
  function PlacedRow(s: Tables, t: Tables, r: Tables, bak: Backup, index: Index, i: nat): Row
    requires i < |bak.accounts| && i < |index.accounts|
  {
    var a := index.accounts[i];
    RestoredRow(s, t, r, a, bak.accounts[i].sharedIds, LinksBefore(s, t, a))
  }

  /** After the accounts stage. */
  lemma AccountsCarried(s: Tables, t: Tables, t1: Tables, withPasswords: bool, bak: Backup, index: Index)
    requires Restorable(s) && Compatible(s, t, withPasswords) && Exports(s, withPasswords, bak, index)
    requires Valid(t1) && UsersRestored(s, t1) && UsersOnly(t, t1, s.userIds.Keys)
    ensures Imported(t1, ImportAccounts(t1, Directory(t1), bak.accounts), Directory(t1), bak.accounts)
    ensures forall i :: 0 <= i < |bak.accounts| ==>
      RowAfter(t1, Directory(t1), bak.accounts[i]) == PlacedRow(s, t, t1, bak, index, i)
  {
    hide Valid, Restorable, Compatible, ExportsAccount, ExportsUser, ExportsGroup, UsersRestored, UsersOnly, RowUsable, RowAfter, RestoredRow,
         Imported, RowsApart, Directory, Lists, DirectoryOf, ImportAccounts;
    forall i | 0 <= i < |bak.accounts|
      ensures RowUsable(t1, Directory(t1), bak.accounts[i])
      ensures RowAfter(t1, Directory(t1), bak.accounts[i]) == PlacedRow(s, t, t1, bak, index, i)
    {
      RowFits(s, t, t1, withPasswords, index.accounts[i], bak.accounts[i]);
    }
    RestorableValid(s);
    ExportedRowsApart(s, withPasswords, bak, index);
    DirectoryGood(t1);
    ImportAccountsAre(t1, Directory(t1), bak.accounts);
  }

  lemma RestorableValid(s: Tables)
    requires Restorable(s)
    ensures Valid(s)
  {
  }
}
