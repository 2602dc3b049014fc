// Moving to a fresh host: who may use which account, by Discord id and username.
module BackupAccess {
  import opened Access
  import opened BackupExport
  import opened BackupGroups
  import opened BackupHosts
  import opened BackupMain
  import BackupNames
  import opened BackupOps
  import opened BackupRestored
  import opened BackupRoundTrip
  import opened BackupStage
  import opened StoreOps
  import opened Tables
  import opened Text
  import opened Wrappers

  lemma RoleCarries(s: Tables, r: Tables, u: nat, role: string)
    requires UserRestored(s, r, u)
    ensures HasRole(r, UserIn(s, r, u), role) <==> HasRole(s, u, role)
  {
  }

  /** A user is in the group of that name there exactly when he was in it here. */
  lemma MembershipCarries(s: Tables, t: Tables, r: Tables, u: nat, g: nat)
    requires Valid(s) && UsersRestored(s, r) && GroupRestored(s, t, r, g) && u in s.users
    ensures InGroup(r, UserIn(s, r, u), GroupIn(s, r, g)) <==> InGroup(s, u, g)
  {
    hide Valid, CarriedGroup, FindGroup, GroupIn, UserIn, HasRole, Of;
    assert UserRestored(s, r, u);
    var x, y := UserIn(s, r, u), GroupIn(s, r, g);
    InOf(r.memberUsers, y, x);
    InOf(s.memberUsers, g, u);
    MembersKnown(s, g);
    UserAmong(s, r, u, Of(s.memberUsers, g));
    forall role
      ensures HasRole(r, x, role) <==> HasRole(s, u, role)
    {
      RoleCarries(s, r, u, role);
    }
  }

  lemma MembersKnown(s: Tables, g: nat)
    requires Valid(s)
    ensures Of(s.memberUsers, g) <= s.users.Keys
  {
  }

  /** Restored users are in a restored set exactly when they were in the set. */
  lemma UserAmong(s: Tables, r: Tables, u: nat, us: set<nat>)
    requires Valid(s) && UsersRestored(s, r) && u in s.users && us <= s.users.Keys
    ensures UserIn(s, r, u) in UsersIn(s, r, us) <==> u in us
  {
    hide Valid, UserIn, UsersRestored;
    if UserIn(s, r, u) in UsersIn(s, r, us) {
      var v :| v in us && UserIn(s, r, v) == UserIn(s, r, u);
      UserInInjective(s, r, u, v);
    }
  }

  lemma NoneCarried(s: Tables, r: Tables, us: set<nat>, gs: set<nat>)
    ensures UsersIn(s, r, us) == {} <==> us == {}
    ensures GroupsIn(s, r, gs) == {} <==> gs == {}
  {
    hide UserIn, GroupIn;
    if u :| u in us {
      assert UserIn(s, r, u) in UsersIn(s, r, us);
    }
    if g :| g in gs {
      assert GroupIn(s, r, g) in GroupsIn(s, r, gs);
    }
  }

  lemma ByGroupCarries(s: Tables, t: Tables, r: Tables, u: nat, row: Row, row': Row)
    requires Valid(s) && UsersRestored(s, r) && (forall g :: g in s.groups ==> GroupRestored(s, t, r, g))
    requires u in s.users && row.groups <= s.groups.Keys && row'.groups == GroupsIn(s, r, row.groups)
    ensures ByGroup(r, UserIn(s, r, u), row') <==> ByGroup(s, u, row)
  {
    hide Valid, UsersRestored, GroupRestored, UserIn, GroupIn, InGroup;
    if ByGroup(s, u, row) {
      var g :| g in row.groups && InGroup(s, u, g);
      MembershipCarries(s, t, r, u, g);
      assert GroupIn(s, r, g) in row'.groups;
    }
    if ByGroup(r, UserIn(s, r, u), row') {
      var x :| x in row'.groups && InGroup(r, UserIn(s, r, u), x);
      var g :| g in row.groups && GroupIn(s, r, g) == x;
      MembershipCarries(s, t, r, u, g);
    }
  }

  /** The account's disabled flag on the new host. */
  function DisabledThere(s: Tables, t: Tables, a: nat): bool {
    a in s.accounts
    && if s.accounts[a].restricted
       then Held(s, t, a).Some? && Held(s, t, a).value in t.accounts && t.accounts[Held(s, t, a).value].disabled
       else s.accounts[a].disabled
  }

  /** Account a's row as it would decide access with this disabled flag. */
  function RowWith(s: Tables, a: nat, disabled: bool): Row {
    var row := RowOf(s, a);
    row.(account := match row.account case None => None case Some(account) => Some(account.(disabled := disabled)))
  }

  /** All of s but its accounts is there. */
  ghost predicate WorldRestored(s: Tables, t: Tables, r: Tables) {
    UsersRestored(s, r) && forall g :: g in s.groups ==> GroupRestored(s, t, r, g)
  }

  /** Access to a live account on the new host is access here, decided with the new host's
      disabled flag. */
  lemma AccessCarries(s: Tables, t: Tables, r: Tables, withPasswords: bool, u: nat, a: nat, sharedIds: seq<string>)
    requires Restorable(s) && Compatible(s, t, withPasswords) && WorldRestored(s, t, r) && AccountRestored(s, t, r, a, sharedIds)
    requires u in s.users && a in s.accounts && LiveAccount(s, a)
    ensures Allowed(r, UserIn(s, r, u), AccountIn(s, r, a)) <==> AllowedByRow(s, u, RowWith(s, a, DisabledThere(s, t, a)))
  {
    hide Valid, UserGood, GroupGood, AccountGood, GroupsDistinct, Compatible, AccountRestored, GroupRestored, UserIn, GroupIn, Of, NamesOf, TagsOf,
         UsersIn, GroupsIn, HasRole, InGroup, ByRole, ByGroup, AccountKey, UserRestored, AccountIn, DisabledThere, LiveAccount;
    var row, row', x := RowOf(s, a), RowOf(r, AccountIn(s, r, a)), UserIn(s, r, u);
    RowThere(s, t, r, withPasswords, a, sharedIds);
    LinksInRange(s, 0);
    ByGroupCarries(s, t, r, u, row, row');
    RolesCarry(s, r, u, row, row');
    NoneCarried(s, r, row.users, row.groups);
    UserAmong(s, r, u, row.users);
    UserAmong(s, r, u, row.shares);
    if s.accounts[a].restricted {
      var owner := s.accounts[a].owner.value;
      OwnerKnownHere(s, a);
      if UserIn(s, r, owner) == x {
        UserInInjective(s, r, u, owner);
      }
    }
    SameGroupsWith(s, u, row, DisabledThere(s, t, a), a);
  }

  /** What access reads of the row there. */
  lemma RowThere(s: Tables, t: Tables, r: Tables, withPasswords: bool, a: nat, sharedIds: seq<string>)
    requires Restorable(s) && Compatible(s, t, withPasswords) && AccountRestored(s, t, r, a, sharedIds) && LiveAccount(s, a)
    ensures var row, row', account := RowOf(s, a), RowOf(r, AccountIn(s, r, a)), s.accounts[a];
      && row'.account.Some?
      && row'.account.value.restricted == account.restricted && row'.account.value.disabled == DisabledThere(s, t, a)
      && row'.groups == GroupsIn(s, r, row.groups) && row'.roles == row.roles
      && (if account.restricted
          then account.owner.Some? && row'.account.value.owner == Some(UserIn(s, r, account.owner.value))
               && row'.shares == UsersIn(s, r, row.shares)
          else row'.users == UsersIn(s, r, row.users))
  {
    hide Valid, UserGood, GroupGood, GroupsDistinct, NamesAgree, RolesGood, UserIn, GroupIn, Of, NamesOf, TagsOf, UsersIn, GroupsIn,
         LiveAccount, AccountKey, Trim, IsTrimmed, BackupNames.OwnName, OtherNames;
    assert AccountGood(s, a) && AccountFits(s, t, withPasswords, a);
    if Held(s, t, a).Some? {
      IndexedExists(t, AccountKey(s.accounts[a].username));
    }
  }

  // ----- A halted account -----

  /** Who can still use a halted account on a host that had nothing of it. */
  predicate KeptUser(s: Tables, u: nat, a: nat, sharedIds: seq<string>) {
    && a in s.accounts
    && (s.accounts[a].owner == Some(u) || u in IdUsers(s, BeforeRevoked(s, sharedIds)) || ByGroup(s, u, RowOf(s, a)))
  }

  lemma HaltedAccess(s: Tables, t: Tables, r: Tables, withPasswords: bool, u: nat, a: nat, sharedIds: seq<string>)
    requires Restorable(s) && Compatible(s, t, withPasswords) && WorldRestored(s, t, r) && AccountRestored(s, t, r, a, sharedIds)
    requires u in s.users && !LiveAccount(s, a) && Held(s, t, a).None?
    ensures Allowed(r, UserIn(s, r, u), AccountIn(s, r, a)) <==> KeptUser(s, u, a, sharedIds)
  {
    hide Valid, UserGood, GroupGood, GroupsDistinct, NamesAgree, RolesGood, UserIn, GroupIn, Of, NamesOf, TagsOf, UsersIn, GroupsIn,
         HasRole, InGroup, ByGroup, AccountKey, Trim, IsTrimmed, OtherNames, UserRestored, GroupRestored, BackupNames.Merged, BeforeRevoked, IdUsers,
         AccountFits;
    assert AccountGood(s, a);
    var row, row', x := RowOf(s, a), RowOf(r, AccountIn(s, r, a)), UserIn(s, r, u);
    var owner, kept := s.accounts[a].owner.value, IdUsers(s, BeforeRevoked(s, sharedIds));
    LinksInRange(s, 0);
    assert row'.groups == GroupsIn(s, r, row.groups);
    ByGroupCarries(s, t, r, u, row, row');
    IdUsersKnown(s, BeforeRevoked(s, sharedIds));
    UserAmong(s, r, u, kept);
    OwnerKnownHere(s, a);
    if UserIn(s, r, owner) == x {
      UserInInjective(s, r, u, owner);
    }
  }

  lemma IdUsersKnown(s: Tables, ids: seq<string>)
    requires Valid(s)
    ensures IdUsers(s, ids) <= s.users.Keys
  {
  }

  lemma OwnerKnownHere(s: Tables, a: nat)
    requires Valid(s) && a in s.accounts && s.accounts[a].owner.Some?
    ensures s.accounts[a].owner.value in s.users
  {
  }

  lemma SameGroupsWith(s: Tables, u: nat, row: Row, disabled: bool, a: nat)
    requires row == RowOf(s, a)
    ensures ByGroup(s, u, RowWith(s, a, disabled)) <==> ByGroup(s, u, row)
    ensures ByRole(s, u, RowWith(s, a, disabled)) <==> ByRole(s, u, row)
  {
    hide InGroup, HasRole;
  }

  lemma RolesCarry(s: Tables, r: Tables, u: nat, row: Row, row': Row)
    requires UsersRestored(s, r) && u in s.users && row'.roles == row.roles
    ensures ByRole(r, UserIn(s, r, u), row') <==> ByRole(s, u, row)
  {
    hide HasRole, UserIn;
    assert UserRestored(s, r, u);
    forall role
      ensures HasRole(r, UserIn(s, r, u), role) <==> HasRole(s, u, role)
    {
      RoleCarries(s, r, u, role);
    }
  }

  // ----- A fresh host -----

  /** Nothing but groups, such as the default group every host starts with. */
  ghost predicate Fresh(t: Tables) {
    Valid(t) && GroupsDistinct(t.groups) && t.users == map[] && t.accounts == map[]
  }

  /** The person of this Discord id may use the account of this username key. */
  predicate MayUse(x: Tables, d: string, key: string) {
    d in x.userIds && key in x.accountIds && Allowed(x, x.userIds[d], x.accountIds[key])
  }

  /** Where a restricted account's disabled flag counts for nothing. */
  predicate MayUseEnabled(s: Tables, d: string, key: string) {
    && d in s.userIds && key in s.accountIds && s.accountIds[key] in s.accounts
    && var a := s.accountIds[key];
       AllowedByRow(s, s.userIds[d], RowWith(s, a, s.accounts[a].disabled && !s.accounts[a].restricted))
  }

  lemma FreshIsBare(t: Tables)
    requires Fresh(t)
    ensures t.userIds == map[] && t.accountIds == map[] && t.aliases == map[] && t.characters == map[]
  {
    hide AccountKey, GroupsNumbered, TagsFiled, NamesFiled;
    assert t.userIds.Keys == {};
    assert t.accountIds.Keys == {};
  }

  lemma FreshFits(s: Tables, t: Tables)
    requires Restorable(s) && Fresh(t) && forall a :: a in s.accounts ==> Trim(s.accounts[a].password) != ""
    ensures Compatible(s, t, true)
  {
    hide Valid, GroupsDistinct, UserGood, AccountGood, GroupGood, AccountKey, Trim;
    FreshIsBare(t);
  }

  /** The recipients listed in the row for account a. */
  ghost function SharedIdsOf(bak: Backup, index: Index, a: nat): seq<string> {
    if exists i :: 0 <= i < |bak.accounts| && i < |index.accounts| && index.accounts[i] == a then
      var i :| 0 <= i < |bak.accounts| && i < |index.accounts| && index.accounts[i] == a;
      bak.accounts[i].sharedIds
    else []
  }

  /** Who of s may use which account once s has moved. */
  ghost predicate MayUseMoved(s: Tables, bak: Backup, index: Index, d: string, key: string) {
    && d in s.userIds && key in s.accountIds
    && var a := s.accountIds[key];
       if LiveAccount(s, a) then MayUseEnabled(s, d, key) else KeptUser(s, s.userIds[d], a, SharedIdsOf(bak, index, a))
  }

  /** Fresh host: after importing an export with passwords, by Discord id and username the same
      people may use the same accounts, restricted ones being enabled again; of an account with
      a revoked recipient only the owner, those listed before him, and its groups remain. */
  lemma FreshHostAccess(s: Tables, t: Tables, bak: Backup, index: Index, d: string, key: string)
    requires Restorable(s) && Fresh(t) && Exports(s, true, bak, index)
    requires forall a :: a in s.accounts ==> Trim(s.accounts[a].password) != ""
    ensures MayUse(Import(t, bak), d, key) <==> MayUseMoved(s, bak, index, d, key)
  {
    hide Valid, Restorable, Exports, Compatible, Import, Allowed, AllowedByRow, RowWith, Fresh, AccountKey, Trim, AccountRestored, LiveAccount,
         KeptUser, UsersRestored, GroupRestored, GroupsDistinct;
    var r := Import(t, bak);
    FreshFits(s, t);
    FreshIsBare(t);
    ImportRestores(s, t, true, bak, index);
    if d in s.userIds && key in s.accountIds {
      RestorableValid(s);
      IndexedExists(s, key);
      KeyOfIndexed(s, key);
      IndexedUserId(s, d);
      var a := s.accountIds[key];
      var i := RowOfAccount(s, true, bak, index, a);
      assert AccountRestored(s, t, r, a, SharedIdsOf(bak, index, a));
      if LiveAccount(s, a) {
        AccessCarries(s, t, r, true, s.userIds[d], a, SharedIdsOf(bak, index, a));
      } else {
        HaltedAccess(s, t, r, true, s.userIds[d], a, SharedIdsOf(bak, index, a));
      }
    }
  }

  lemma IndexedUserId(s: Tables, d: string)
    requires Valid(s) && d in s.userIds
    ensures s.userIds[d] in s.users && s.users[s.userIds[d]].discordId == d
  {
  }

  /** Nobody loses account a by the move: it has no revoked recipient, or every recipient and
      every holder of a granted role is kept anyway. */
  ghost predicate NobodyLoses(s: Tables, a: nat, sharedIds: seq<string>) {
    LiveAccount(s, a) ||
    forall u :: u in s.users && (u in Of(s.shares, a) || ByRole(s, u, RowOf(s, a))) ==> KeptUser(s, u, a, sharedIds)
  }

  /** So the relation is the same for all exactly when no restricted account is disabled, for
      that one is open to its owner again, and nobody loses one with a revoked recipient. */
  lemma FreshHostExactly(s: Tables, t: Tables, bak: Backup, index: Index)
    requires Restorable(s) && Fresh(t) && Exports(s, true, bak, index)
    requires forall a :: a in s.accounts ==> Trim(s.accounts[a].password) != ""
    ensures (forall d, key :: MayUse(Import(t, bak), d, key) <==> MayUse(s, d, key))
       <==> forall a :: a in s.accounts ==>
              !(s.accounts[a].restricted && s.accounts[a].disabled) && NobodyLoses(s, a, SharedIdsOf(bak, index, a))
  {
    hide Valid, Restorable, Exports, Compatible, Import, Fresh, AccountKey, Trim, MayUse, MayUseMoved, NobodyLoses;
    var r := Import(t, bak);
    forall d, key
      ensures MayUse(r, d, key) <==> MayUseMoved(s, bak, index, d, key)
    {
      FreshHostAccess(s, t, bak, index, d, key);
    }
    RestorableValid(s);
    if forall a :: a in s.accounts ==>
         !(s.accounts[a].restricted && s.accounts[a].disabled) && NobodyLoses(s, a, SharedIdsOf(bak, index, a)) {
      forall d, key
        ensures MayUseMoved(s, bak, index, d, key) <==> MayUse(s, d, key)
      {
        MovedSame(s, true, bak, index, d, key);
      }
    } else {
      var a :| a in s.accounts &&
        ((s.accounts[a].restricted && s.accounts[a].disabled) || !NobodyLoses(s, a, SharedIdsOf(bak, index, a)));
      var d, key := AccessDiffers(s, bak, index, a);
    }
  }

  /** The recipients kept were recipients. */
  lemma KeptWereShared(s: Tables, withPasswords: bool, bak: Backup, index: Index, a: nat)
    requires Valid(s) && Exports(s, withPasswords, bak, index) && a in s.accounts && s.accounts[a].restricted
    ensures IdUsers(s, BeforeRevoked(s, SharedIdsOf(bak, index, a))) <= Of(s.shares, a)
  {
    hide AccountsIndexed, OwnersIn, GroupsNumbered, NamesFiled, TagsFiled, KeysIn, ValuesIn, NamesRefer, TagsRefer, Of, NamesOf, TagsOf, Lists,
         ExportsUser, ExportsGroup, Exports, BeforeRevoked;
    var ids := SharedIdsOf(bak, index, a);
    RowOfShared(s, withPasswords, bak, index, a);
    BeforeRevokedIs(s, ids);
    forall id | id in BeforeRevoked(s, ids) && id in s.userIds
      ensures s.userIds[id] in Of(s.shares, a)
    {
      assert id in Elems(ids);
    }
  }

  lemma RowOfShared(s: Tables, withPasswords: bool, bak: Backup, index: Index, a: nat)
    requires Exports(s, withPasswords, bak, index) && a in s.accounts && s.accounts[a].restricted
    ensures Elems(SharedIdsOf(bak, index, a)) == DiscordIds(s, Of(s.shares, a))
  {
    hide ExportsUser, ExportsGroup, NamesOf, TagsOf, Of, DiscordIds;
    var i := RowOfAccount(s, withPasswords, bak, index, a);
    var j :| 0 <= j < |bak.accounts| && j < |index.accounts| && index.accounts[j] == a && bak.accounts[j].sharedIds == SharedIdsOf(bak, index, a);
    assert ExportsAccount(s, withPasswords, index.accounts[j], bak.accounts[j]);
  }

  lemma MovedSame(s: Tables, withPasswords: bool, bak: Backup, index: Index, d: string, key: string)
    requires Valid(s) && Exports(s, withPasswords, bak, index)
    requires forall a :: a in s.accounts ==>
      !(s.accounts[a].restricted && s.accounts[a].disabled) && NobodyLoses(s, a, SharedIdsOf(bak, index, a))
    ensures MayUseMoved(s, bak, index, d, key) <==> MayUse(s, d, key)
  {
    hide Valid, Exports, Of, NamesOf, TagsOf, BeforeRevoked, IdUsers, ByGroup, ByRole, MayUseEnabled, SharedIdsOf;
    if d in s.userIds && key in s.accountIds {
      IndexedExists(s, key);
      IndexedUserId(s, d);
      var a := s.accountIds[key];
      if LiveAccount(s, a) {
        EnabledSame(s, d, key);
      } else {
        KeptWereShared(s, withPasswords, bak, index, a);
      }
    }
  }

  /** Somebody who may use the account on one host and not on the other. */
  lemma AccessDiffers(s: Tables, bak: Backup, index: Index, a: nat) returns (d: string, key: string)
    requires Restorable(s) && a in s.accounts
    requires (s.accounts[a].restricted && s.accounts[a].disabled) || !NobodyLoses(s, a, SharedIdsOf(bak, index, a))
    ensures MayUseMoved(s, bak, index, d, key) != MayUse(s, d, key)
  {
    hide Valid, UserGood, GroupGood, GroupsDistinct, Of, NamesOf, TagsOf, AccountKey, ByRole, ByGroup, RolesGood, IsTrimmed, BeforeRevoked,
         IdUsers, SharedIdsOf;
    assert AccountGood(s, a);
    IndexedByKey(s, a);
    key := AccountKey(s.accounts[a].username);
    OwnerKnownHere(s, a);
    if s.accounts[a].restricted && s.accounts[a].disabled {
      var owner := s.accounts[a].owner.value;
      d := s.users[owner].discordId;
      UserIndexed(s, owner);
    } else {
      var u :| u in s.users && (u in Of(s.shares, a) || ByRole(s, u, RowOf(s, a))) && !KeptUser(s, u, a, SharedIdsOf(bak, index, a));
      d := s.users[u].discordId;
      UserIndexed(s, u);
    }
  }

  lemma EnabledSame(s: Tables, d: string, key: string)
    requires Valid(s)
    requires key in s.accountIds && s.accountIds[key] in s.accounts ==>
      !(s.accounts[s.accountIds[key]].restricted && s.accounts[s.accountIds[key]].disabled)
    ensures MayUseEnabled(s, d, key) <==> MayUse(s, d, key)
  {
    hide Valid, Of, NamesOf, TagsOf, AllowedByRow;
    if key in s.accountIds {
      IndexedExists(s, key);
      RowWithSame(s, s.accountIds[key]);
    }
  }

  lemma RowWithSame(s: Tables, a: nat)
    requires a in s.accounts
    ensures RowWith(s, a, s.accounts[a].disabled) == RowOf(s, a)
  {
  }

  lemma UserIndexed(s: Tables, u: nat)
    requires Valid(s) && u in s.users
    ensures s.users[u].discordId in s.userIds && s.userIds[s.users[u].discordId] == u
  {
  }
}
