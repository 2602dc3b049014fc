// The theorem about backups: importing an export restores the store, on any host it fits.
module BackupMain {
  import opened BackupAccounts
  import opened BackupExport
  import opened BackupGroups
  import opened BackupHosts
  import opened BackupNames
  import opened BackupOps
  import opened BackupRestored
  import opened BackupRoundTrip
  import opened BackupStage
  import opened BackupUsers
  import opened Roles
  import opened StoreOps
  import opened Tables
  import opened Text
  import opened Wrappers

  /** The account of r with the username of a. */
  function AccountIn(s: Tables, r: Tables, a: nat): nat {
    if a in s.accounts && AccountKey(s.accounts[a].username) in r.accountIds then r.accountIds[AccountKey(s.accounts[a].username)] else 0
  }

  function AccountsIn(s: Tables, r: Tables, ids: set<nat>): set<nat> {
    set a | a in ids :: AccountIn(s, r, a)
  }

  /** The group of r with the name of g. */
  function GroupIn(s: Tables, r: Tables, g: nat): nat {
    if g in s.groups && FindGroup(r, s.groups[g].name).Some? then FindGroup(r, s.groups[g].name).value else 0
  }

  function GroupsIn(s: Tables, r: Tables, gs: set<nat>): set<nat> {
    set g | g in gs :: GroupIn(s, r, g)
  }

  /** Links to groups of s are those of s; links to other groups are what they were. */
  function LinksAfter(s: Tables, r: Tables, a: nat, before: set<nat>): set<nat> {
    GroupsIn(s, r, Of(s.links, a)) + (before - GroupsIn(s, r, s.groups.Keys))
  }

  ghost predicate AccountRestored(s: Tables, t: Tables, r: Tables, a: nat, sharedIds: seq<string>) {
    && a in s.accounts && AccountKey(s.accounts[a].username) in r.accountIds
    && RowOf(r, AccountIn(s, r, a)) == RestoredRow(s, t, r, a, sharedIds, LinksAfter(s, r, a, LinksBefore(s, t, a)))
  }

  /** Group g as it must be on a host that was t: its description is trimmed where the host had
      the group, and as given where it did not. */
  function CarriedGroup(s: Tables, t: Tables, g: nat): Group
    requires g in s.groups
  {
    var group := s.groups[g];
    group.(description := if FindGroup(t, group.name).Some? then Trim(group.description) else group.description)
  }

  ghost predicate GroupRestored(s: Tables, t: Tables, r: Tables, g: nat) {
    && g in s.groups && FindGroup(r, s.groups[g].name).Some?
    && GroupIn(s, r, g) in r.groups && r.groups[GroupIn(s, r, g)] == CarriedGroup(s, t, g)
    && Of(r.memberUsers, GroupIn(s, r, g)) == UsersIn(s, r, Of(s.memberUsers, g))
    && Of(r.memberRoles, GroupIn(s, r, g)) == Of(s.memberRoles, g)
  }

  /** Host t has become r, which has all of s as the backup carried it. */
  ghost predicate Restored(s: Tables, t: Tables, r: Tables, bak: Backup, index: Index) {
    && Valid(r) && GroupsDistinct(r.groups) && UsersRestored(s, r)
    && |index.accounts| == |bak.accounts|
    && (forall i :: 0 <= i < |bak.accounts| ==> AccountRestored(s, t, r, index.accounts[i], bak.accounts[i].sharedIds))
    && (forall g :: g in s.groups ==> GroupRestored(s, t, r, g))
  }

  /** What t had keeps its id, and there is nothing but what t or s had. */
  ghost predicate NothingElse(s: Tables, t: Tables, r: Tables) {
    && r.userIds.Keys == t.userIds.Keys + s.userIds.Keys
    && (forall d :: d in t.userIds ==> r.userIds[d] == t.userIds[d])
    && r.accountIds.Keys == t.accountIds.Keys + s.accountIds.Keys
    && (forall k :: k in t.accountIds ==> r.accountIds[k] == t.accountIds[k])
    && (forall g :: g in r.groups ==> g in t.groups || exists h :: h in s.groups && g == GroupIn(s, r, h))
    && (forall h :: h in s.groups && FindGroup(t, s.groups[h].name).Some? ==> GroupIn(s, r, h) == FindGroup(t, s.groups[h].name).value)
  }

  // ----- The rows of groups -----

  lemma KnownCommand(c: string)
    requires c in KNOWN_COMMANDS
    ensures Lower(Trim(c)) == c && c != ""
  {
    TrimOfTrimmed("sso");
    TrimOfTrimmed("whoami");
    assert Lower("sso") == "sso" && Lower("whoami") == "whoami";
  }

  lemma {:induction false} CommandsKept(commands: seq<string>)
    requires Elems(commands) <= KNOWN_COMMANDS
    ensures NormalizeCommands(commands) == Some(Elems(commands))
  {
    hide Trim, Lower;
    if commands == [] {
      assert Elems(commands) == {};
    } else {
      ElemsLast(commands);
      CommandsKept(commands[..|commands| - 1]);
      KnownCommand(commands[|commands| - 1]);
      assert commands[|commands| - 1] in Elems(commands);
    }
  }

  lemma ExportedGroupRow(s: Tables, g: nat, row: GroupRow)
    requires Restorable(s) && ExportsGroup(s, g, row)
    ensures GroupRowGood(row) && forall t: Tables :: GroupOfRow(t, row) == CarriedGroup(s, t, g)
    ensures Elems(CleanRoles(row.memberRoles)) == Of(s.memberRoles, g)
  {
    hide Valid, UserGood, AccountGood, IsTrimmed, NormalizeWebRole, NormalizeCommands, Of, Having, DiscordIds, Usernames, IsDefaultGroupName, CleanRoles, Lower;
    assert GroupGood(s, g);
    CommandsKept(row.commands);
    forall i | 0 <= i < |row.memberRoles|
      ensures row.memberRoles[i] != "" && IsTrimmed(row.memberRoles[i])
    {
      assert row.memberRoles[i] in Elems(row.memberRoles);
    }
    CleanRolesFixed(row.memberRoles);
  }

  lemma ExportedGroupRows(s: Tables, withPasswords: bool, bak: Backup, index: Index)
    requires Restorable(s) && Exports(s, withPasswords, bak, index)
    ensures GroupRowsGood(bak.groups) && GroupRowsApart(bak.groups)
  {
    hide Valid, UserGood, AccountGood, GroupGood, GroupRowGood, ExportsUser, ExportsAccount, Lower, IsTrimmed;
    forall i | 0 <= i < |bak.groups|
      ensures GroupRowGood(bak.groups[i]) && index.groups[i] in s.groups && bak.groups[i].name == s.groups[index.groups[i]].name
    {
      ExportedGroupRow(s, index.groups[i], bak.groups[i]);
    }
  }

  lemma {:induction false} LookupAccountsAll(t: Tables, usernames: seq<string>)
    requires Valid(t)
    requires forall i :: 0 <= i < |usernames| ==>
      usernames[i] != "" && IsTrimmed(usernames[i]) && AccountKey(usernames[i]) in t.accountIds
    ensures forall x :: x in LookupAccounts(t, usernames) <==>
      exists name :: name in usernames && AccountKey(name) in t.accountIds && t.accountIds[AccountKey(name)] == x
  {
    hide Valid, FindAccount, AccountKey, IsTrimmed;
    if usernames != [] {
      var last := |usernames| - 1;
      LookupAccountsAll(t, usernames[..last]);
      KeyIndexed(t, usernames[last]);
      assert usernames == usernames[..last] + [usernames[last]];
      assert forall n :: n in usernames <==> n in usernames[..last] || n == usernames[last];
    }
  }

  /** A list of exported usernames finds exactly the accounts it stood for. */
  lemma LinkedAccounts(s: Tables, t2: Tables, usernames: seq<string>, ids: set<nat>)
    requires Restorable(s) && Valid(t2) && ids <= s.accounts.Keys && Elems(usernames) == Usernames(s, ids)
    requires forall a :: a in s.accounts ==> AccountKey(s.accounts[a].username) in t2.accountIds
    ensures Elems(LookupAccounts(t2, usernames)) == AccountsIn(s, t2, ids)
  {
    hide Valid, AccountKey, IsTrimmed, LookupAccounts, UserGood, GroupGood, RolesGood, Of, Sharable;
    forall i | 0 <= i < |usernames|
      ensures usernames[i] != "" && IsTrimmed(usernames[i]) && AccountKey(usernames[i]) in t2.accountIds
    {
      assert usernames[i] in Elems(usernames);
      var a :| a in ids && a in s.accounts && s.accounts[a].username == usernames[i];
      assert AccountGood(s, a);
    }
    LookupAccountsAll(t2, usernames);
    forall x | x in LookupAccounts(t2, usernames)
      ensures x in AccountsIn(s, t2, ids)
    {
      var name :| name in usernames && AccountKey(name) in t2.accountIds && t2.accountIds[AccountKey(name)] == x;
      assert name in Elems(usernames);
      var a :| a in ids && a in s.accounts && s.accounts[a].username == name;
      assert AccountIn(s, t2, a) == x;
    }
    forall a | a in ids
      ensures AccountIn(s, t2, a) in LookupAccounts(t2, usernames)
    {
      assert AccountGood(s, a);
      assert s.accounts[a].username in Elems(usernames);
    }
  }

  // ----- After the groups stage -----

  /** After the accounts stage every account of s has its key. */
  ghost predicate KeysPlaced(s: Tables, t2: Tables) {
    && Valid(t2) && GroupsDistinct(t2.groups) && UsersRestored(s, t2)
    && forall a :: a in s.accounts ==> AccountKey(s.accounts[a].username) in t2.accountIds
  }

  /** The state after the accounts stage, as far as s is concerned. */
  ghost predicate AccountsPlaced(s: Tables, t: Tables, t2: Tables, bak: Backup, index: Index) {
    && KeysPlaced(s, t2) && |index.accounts| == |bak.accounts|
    && forall i :: 0 <= i < |bak.accounts| ==> RowOf(t2, AccountIn(s, t2, index.accounts[i])) == PlacedRow(s, t, t2, bak, index, i)
  }

  lemma LinksInRange(s: Tables, g: nat)
    requires Valid(s)
    ensures Having(s.links, g) <= s.accounts.Keys && Of(s.memberUsers, g) <= s.users.Keys
    ensures forall a: nat :: Of(s.links, a) <= s.groups.Keys && Of(s.accessUsers, a) <= s.users.Keys && Of(s.shares, a) <= s.users.Keys
  {
  }

  /** One group after its stage. */
  lemma GroupCarried(s: Tables, t2: Tables, done: Grouped, withPasswords: bool, bak: Backup, index: Index, i: nat)
    requires Restorable(s) && Exports(s, withPasswords, bak, index) && KeysPlaced(s, t2)
    requires GroupsImported(t2, done, Directory(t2), bak.groups) && i < |bak.groups|
    ensures var g, r := index.groups[i], done.tables;
      && g in s.groups && GroupRestored(s, t2, r, g)
      && Lower(bak.groups[i].name) in done.ids && done.ids[Lower(bak.groups[i].name)] == GroupIn(s, r, g)
      && Having(r.links, GroupIn(s, r, g)) == AccountsIn(s, t2, Having(s.links, g))
      && (FindGroup(t2, s.groups[g].name).Some? ==> GroupIn(s, r, g) == FindGroup(t2, s.groups[g].name).value)
  {
    hide Valid, UserGood, AccountGood, GroupGood, GroupRowGood, ExportsUser, ExportsAccount, CarriedGroup, Lower, IsTrimmed, Of, Having, Directory, Lookup,
         LookupAccounts, CleanRoles, FindGroup, GroupOfRow, RowOf, CarriedRow, AccountKey, UserRestored, GroupKept, Usernames, DiscordIds,
         AccountsIn, UsersIn;
    var g, row, r := index.groups[i], bak.groups[i], done.tables;
    ExportedGroupRow(s, g, row);
    assert GroupDone(t2, r, Directory(t2), row, done.ids[Lower(row.name)]);
    assert GroupOfRow(t2, row) == CarriedGroup(s, t2, g);
    CarriedName(s, t2, g);
    NameGood(row);
    ValidNumbers(r);
    FindIs(r, row.name);
    LinksInRange(s, g);
    LookupExported(s, t2, row.memberIds, Of(s.memberUsers, g));
    LinkedAccounts(s, t2, row.usernames, Having(s.links, g));
    SameUsersIn(s, t2, r);
  }

  lemma CarriedName(s: Tables, t: Tables, g: nat)
    requires g in s.groups
    ensures CarriedGroup(s, t, g).name == s.groups[g].name
  {
  }

  lemma NameGood(row: GroupRow)
    requires GroupRowGood(row)
    ensures row.name != "" && IsTrimmed(row.name)
  {
  }

  lemma SameUsersIn(s: Tables, t: Tables, r: Tables)
    requires r.userIds == t.userIds
    ensures forall u :: UserIn(s, r, u) == UserIn(s, t, u)
    ensures forall us :: UsersIn(s, r, us) == UsersIn(s, t, us)
  {
  }

  lemma AccountInInjective(s: Tables, r: Tables, a: nat, b: nat)
    requires Valid(s) && Valid(r) && a in s.accounts && b in s.accounts
    requires AccountKey(s.accounts[a].username) in r.accountIds && AccountKey(s.accounts[b].username) in r.accountIds
    requires AccountIn(s, r, a) == AccountIn(s, r, b)
    ensures a == b
  {
    hide Valid, AccountKey;
    IndexedByKey(s, a);
    IndexedByKey(s, b);
    if AccountKey(s.accounts[a].username) != AccountKey(s.accounts[b].username) {
      KeysApart(r, AccountKey(s.accounts[a].username), AccountKey(s.accounts[b].username));
    }
  }

  /** The groups the stage wrote are those of s. */
  lemma GroupsWritten(s: Tables, t2: Tables, done: Grouped, withPasswords: bool, bak: Backup, index: Index)
    requires Restorable(s) && Exports(s, withPasswords, bak, index) && KeysPlaced(s, t2)
    requires GroupsImported(t2, done, Directory(t2), bak.groups)
    ensures done.ids.Values == GroupsIn(s, done.tables, s.groups.Keys)
  {
    hide Valid, Restorable, Exports, KeysPlaced, GroupDone, GroupKept, Lower, FindGroup, GroupsDistinct, Directory, GroupRestored, GroupIn;
    forall x | x in done.ids.Values
      ensures x in GroupsIn(s, done.tables, s.groups.Keys)
    {
      var k :| k in done.ids && done.ids[k] == x;
      var i :| 0 <= i < |bak.groups| && Lower(bak.groups[i].name) == k;
      RowGroups(s, withPasswords, bak, index, i);
      GroupCarried(s, t2, done, withPasswords, bak, index, i);
    }
    forall g | g in s.groups
      ensures GroupIn(s, done.tables, g) in done.ids.Values
    {
      var i := RowOfGroup(s, withPasswords, bak, index, g);
      GroupCarried(s, t2, done, withPasswords, bak, index, i);
    }
  }

  /** An account's links after the groups stage. */
  lemma LinksCarried(s: Tables, t2: Tables, done: Grouped, withPasswords: bool, bak: Backup, index: Index, a: nat)
    requires Restorable(s) && Exports(s, withPasswords, bak, index) && KeysPlaced(s, t2)
    requires GroupsImported(t2, done, Directory(t2), bak.groups) && a in s.accounts
    ensures Of(done.tables.links, AccountIn(s, t2, a)) == LinksAfter(s, done.tables, a, Of(t2.links, AccountIn(s, t2, a)))
  {
    hide Valid, Restorable, Exports, RowOf, AccountKey, GroupsDistinct, UsersRestored, GroupRestored, Having, Of, AccountIn, GroupIn, FindGroup,
         GroupsIn;
    var r, b := done.tables, AccountIn(s, t2, a);
    GroupsWritten(s, t2, done, withPasswords, bak, index);
    RestorableValid(s);
    LinksInRange(s, 0);
    forall x: nat
      ensures x in Of(r.links, b) <==> x in LinksAfter(s, r, a, Of(t2.links, b))
    {
      LinkCarried(s, t2, done, withPasswords, bak, index, a, x);
    }
  }

  lemma SomeGroups(s: Tables, r: Tables, gs: set<nat>, hs: set<nat>)
    requires gs <= hs
    ensures GroupsIn(s, r, gs) <= GroupsIn(s, r, hs)
  {
    hide GroupIn;
  }

  /** One link: to a group of s as s has it, to another as it was. */
  lemma LinkCarried(s: Tables, t2: Tables, done: Grouped, withPasswords: bool, bak: Backup, index: Index, a: nat, x: nat)
    requires Restorable(s) && Exports(s, withPasswords, bak, index) && KeysPlaced(s, t2)
    requires GroupsImported(t2, done, Directory(t2), bak.groups) && a in s.accounts
    requires done.ids.Values == GroupsIn(s, done.tables, s.groups.Keys) && Of(s.links, a) <= s.groups.Keys
    ensures x in Of(done.tables.links, AccountIn(s, t2, a)) <==> x in LinksAfter(s, done.tables, a, Of(t2.links, AccountIn(s, t2, a)))
  {
    hide Valid, Restorable, Exports, RowOf, AccountKey, GroupsDistinct, UsersRestored, GroupRestored, Having, Of, AccountIn, GroupIn, FindGroup,
         GroupDone, GroupsIn, KeysPlaced;
    var r, b := done.tables, AccountIn(s, t2, a);
    SomeGroups(s, r, Of(s.links, a), s.groups.Keys);
    InOf(r.links, b, x);
    InHaving(r.links, x, b);
    InOf(t2.links, b, x);
    InHaving(t2.links, x, b);
    if x !in done.ids.Values {
      assert GroupKept(t2, r, x);
    } else if x in Of(r.links, b) {
      LinkHasRow(s, t2, done, withPasswords, bak, index, a, x);
    } else if x in GroupsIn(s, r, Of(s.links, a)) {
      LinkIsThere(s, t2, done, withPasswords, bak, index, a, x);
    }
  }

  /** Every link of s is there. */
  lemma LinkIsThere(s: Tables, t2: Tables, done: Grouped, withPasswords: bool, bak: Backup, index: Index, a: nat, x: nat)
    requires Restorable(s) && Exports(s, withPasswords, bak, index) && KeysPlaced(s, t2)
    requires GroupsImported(t2, done, Directory(t2), bak.groups) && a in s.accounts
    requires x in GroupsIn(s, done.tables, Of(s.links, a)) && Of(s.links, a) <= s.groups.Keys
    ensures x in Of(done.tables.links, AccountIn(s, t2, a))
  {
    hide Valid, Restorable, Exports, RowOf, AccountKey, GroupsDistinct, UsersRestored, GroupRestored, Having, Of, AccountIn, GroupIn, FindGroup,
         GroupDone, KeysPlaced;
    var r, b := done.tables, AccountIn(s, t2, a);
    var g :| g in Of(s.links, a) && GroupIn(s, r, g) == x;
    var i := RowOfGroup(s, withPasswords, bak, index, g);
    GroupCarried(s, t2, done, withPasswords, bak, index, i);
    InOf(s.links, a, g);
    InHaving(s.links, g, a);
    InHaving(r.links, x, b);
    InOf(r.links, b, x);
  }

  lemma RowOfGroup(s: Tables, withPasswords: bool, bak: Backup, index: Index, g: nat) returns (i: nat)
    requires Exports(s, withPasswords, bak, index) && g in s.groups
    ensures i < |bak.groups| && i < |index.groups| && index.groups[i] == g && bak.groups[i].name == s.groups[g].name
  {
    hide ExportsUser, ExportsAccount;
    assert g in Elems(index.groups);
    i :| 0 <= i < |index.groups| && index.groups[i] == g;
    assert ExportsGroup(s, index.groups[i], bak.groups[i]);
  }

  /** A link to a group of s is one of s. */
  lemma LinkHasRow(s: Tables, t2: Tables, done: Grouped, withPasswords: bool, bak: Backup, index: Index, a: nat, x: nat)
    requires Restorable(s) && Exports(s, withPasswords, bak, index) && KeysPlaced(s, t2)
    requires GroupsImported(t2, done, Directory(t2), bak.groups) && a in s.accounts
    requires x in done.ids.Values && AccountIn(s, t2, a) in Having(done.tables.links, x)
    ensures x in GroupsIn(s, done.tables, Of(s.links, a))
  {
    hide Valid, RowOf, AccountKey, GroupsDistinct, UsersRestored, Having, Of, AccountIn, GroupIn, FindGroup, Lower, GroupRestored,
         GroupDone, CarriedRow, Directory, UserGood, AccountGood, GroupGood, ExportsUser, ExportsAccount, ExportsGroup, Lists;
    var r, b := done.tables, AccountIn(s, t2, a);
    var k :| k in done.ids && done.ids[k] == x;
    var i :| 0 <= i < |bak.groups| && Lower(bak.groups[i].name) == k;
    GroupCarried(s, t2, done, withPasswords, bak, index, i);
    var g := index.groups[i];
    assert b in AccountsIn(s, t2, Having(s.links, g));
    var c :| c in Having(s.links, g) && AccountIn(s, t2, c) == b;
    LinksInRange(s, g);
    AccountInInjective(s, t2, a, c);
    InHaving(s.links, g, a);
    InOf(s.links, a, g);
  }

  // ----- The last pass -----

  lemma {:induction false} LookupGroupsAll(ids: map<string, nat>, names: seq<string>)
    requires forall i :: 0 <= i < |names| ==> IsTrimmed(names[i]) && Lower(names[i]) in ids
    ensures forall x :: x in LookupGroups(ids, names) <==>
      exists name :: name in names && Lower(name) in ids && ids[Lower(name)] == x
  {
    hide IsTrimmed, Lower;
    if names != [] {
      var last := |names| - 1;
      LookupGroupsAll(ids, names[..last]);
      TrimOfTrimmed(names[last]);
      assert names == names[..last] + [names[last]];
      assert forall n :: n in names <==> n in names[..last] || n == names[last];
    }
  }

  /** Exported group names find the groups they stood for. */
  lemma LinkedGroups(s: Tables, r: Tables, ids: map<string, nat>, names: seq<string>, gs: set<nat>)
    requires GroupsDistinct(s.groups) && gs <= s.groups.Keys && Elems(names) == NamesOfGroups(s, gs)
    requires forall g :: g in s.groups ==> Lower(s.groups[g].name) in ids && ids[Lower(s.groups[g].name)] == GroupIn(s, r, g)
    ensures Elems(LookupGroups(ids, names)) == GroupsIn(s, r, gs)
  {
    hide IsTrimmed, Lower, LookupGroups, GroupIn;
    forall i | 0 <= i < |names|
      ensures IsTrimmed(names[i]) && Lower(names[i]) in ids
    {
      assert names[i] in Elems(names);
      var g :| g in gs && g in s.groups && s.groups[g].name == names[i];
    }
    LookupGroupsAll(ids, names);
    forall x | x in LookupGroups(ids, names)
      ensures x in GroupsIn(s, r, gs)
    {
      var name :| name in names && Lower(name) in ids && ids[Lower(name)] == x;
      assert name in Elems(names);
      var g :| g in gs && g in s.groups && s.groups[g].name == name;
      assert GroupIn(s, r, g) == x;
    }
    forall g | g in gs
      ensures GroupIn(s, r, g) in LookupGroups(ids, names)
    {
      assert s.groups[g].name in Elems(names);
    }
  }

  /** All groups after their stage. */
  lemma GroupsCarried(s: Tables, t2: Tables, done: Grouped, withPasswords: bool, bak: Backup, index: Index)
    requires Restorable(s) && Exports(s, withPasswords, bak, index) && KeysPlaced(s, t2)
    requires GroupsImported(t2, done, Directory(t2), bak.groups)
    ensures forall g :: g in s.groups ==>
      && GroupRestored(s, t2, done.tables, g)
      && Lower(s.groups[g].name) in done.ids && done.ids[Lower(s.groups[g].name)] == GroupIn(s, done.tables, g)
      && GroupIn(s, done.tables, g) > 0 && GroupIn(s, done.tables, g) in done.tables.groups
      && (FindGroup(t2, s.groups[g].name).Some? ==> GroupIn(s, done.tables, g) == FindGroup(t2, s.groups[g].name).value)
    ensures forall x :: x in done.tables.groups ==> x in t2.groups || exists h :: h in s.groups && x == GroupIn(s, done.tables, h)
  {
    hide Valid, Restorable, Exports, KeysPlaced, GroupDone, Lower, FindGroup, GroupsDistinct, Directory, GroupRestored;
    var r := done.tables;
    forall g | g in s.groups
      ensures GroupRestored(s, t2, r, g)
      ensures Lower(s.groups[g].name) in done.ids && done.ids[Lower(s.groups[g].name)] == GroupIn(s, r, g)
      ensures GroupIn(s, r, g) > 0 && GroupIn(s, r, g) in r.groups
      ensures FindGroup(t2, s.groups[g].name).Some? ==> GroupIn(s, r, g) == FindGroup(t2, s.groups[g].name).value
    {
      var i := RowOfGroup(s, withPasswords, bak, index, g);
      GroupCarried(s, t2, done, withPasswords, bak, index, i);
      RestoredExists(s, t2, r, g);
    }
    forall x | x in r.groups && x !in t2.groups
      ensures exists h :: h in s.groups && x == GroupIn(s, r, h)
    {
      if x !in done.ids.Values {
        assert false;
      }
      var k :| k in done.ids && done.ids[k] == x;
      var i :| 0 <= i < |bak.groups| && Lower(bak.groups[i].name) == k;
      RowGroups(s, withPasswords, bak, index, i);
      GroupCarried(s, t2, done, withPasswords, bak, index, i);
    }
  }

  lemma RowGroups(s: Tables, withPasswords: bool, bak: Backup, index: Index, i: nat)
    requires Exports(s, withPasswords, bak, index) && i < |bak.groups|
    ensures i < |index.groups| && index.groups[i] in s.groups
  {
    hide ExportsUser, ExportsAccount, ExportsGroup;
    assert index.groups[i] in Elems(index.groups);
  }

  lemma RestoredExists(s: Tables, t: Tables, r: Tables, g: nat)
    requires GroupRestored(s, t, r, g) && Valid(r)
    ensures GroupIn(s, r, g) in r.groups && GroupIn(s, r, g) > 0
  {
    hide FindGroup;
  }

  /** All accounts after the groups stage, and the last pass has nothing to do. */
  lemma AccountCarried(s: Tables, t: Tables, t2: Tables, done: Grouped, withPasswords: bool, bak: Backup, index: Index, i: nat)
    requires Restorable(s) && Exports(s, withPasswords, bak, index) && AccountsPlaced(s, t, t2, bak, index)
    requires GroupsImported(t2, done, Directory(t2), bak.groups) && i < |bak.accounts|
    ensures i < |index.accounts| && AccountRestored(s, t, done.tables, index.accounts[i], bak.accounts[i].sharedIds)
    ensures GrantInPlace(done.tables, Directory(t2), done.ids, bak.accounts[i])
  {
    hide Valid, UserGood, GroupGood, ExportsUser, ExportsGroup, GroupsImported, AccountKey, IsTrimmed, GroupsDistinct, UsersRestored, Directory,
         Lookup, LookupGroups, CleanIds, CleanRoles, FindGroup, Lower, Of, NamesOf, TagsOf, DiscordIds, NamesOfGroups, Elems, GroupIn, UserIn,
         AccountIn, FindAccount, RolesGood, OwnName, OtherNames, CarriedAccount, HeldRow, RowOf, RestoredRow, GrantInPlace, LinksAfter, LinksBefore;
    var a, row, r := index.accounts[i], bak.accounts[i], done.tables;
    assert ExportsAccount(s, withPasswords, a, row) && AccountGood(s, a);
    var b := AccountIn(s, t2, a);
    LinksCarried(s, t2, done, withPasswords, bak, index, a);
    GroupsOnly(t2, done, bak, b);
    GroupsInRow(t2, b);
    RestoredSame(s, t, t2, r, a, row.sharedIds, LinksAfter(s, r, a, LinksBefore(s, t, a)), LinksBefore(s, t, a));
    GrantsReady(s, t, t2, done, withPasswords, bak, index, a, row);
    SameAccountIn(s, t2, r, a);
  }

  lemma GroupsInRow(t: Tables, b: nat)
    ensures RowOf(t, b).groups == Of(t.links, b)
  {
  }

  lemma RestoredSame(s: Tables, t: Tables, t2: Tables, r: Tables, a: nat, sharedIds: seq<string>, groups: set<nat>, before: set<nat>)
    requires r.userIds == t2.userIds
    ensures RestoredRow(s, t, r, a, sharedIds, groups) == RestoredRow(s, t, t2, a, sharedIds, before).(groups := groups)
    ensures RestoredRow(s, t, t2, a, sharedIds, before).groups == before
  {
    hide OwnName, OtherNames, RowOf, AccountKey, Merged, BeforeRevoked, IdUsers, LiveAccount;
    SameUsersIn(s, t2, r);
  }

  lemma SameAccountIn(s: Tables, t: Tables, r: Tables, a: nat)
    requires r.accountIds == t.accountIds
    ensures AccountIn(s, r, a) == AccountIn(s, t, a)
  {
  }

  lemma GroupsOnly(t2: Tables, done: Grouped, bak: Backup, b: nat)
    requires GroupsImported(t2, done, Directory(t2), bak.groups)
    ensures RowOf(done.tables, b) == RowOf(t2, b).(groups := Of(done.tables.links, b))
    ensures done.tables.accountIds == t2.accountIds && done.tables.userIds == t2.userIds && done.tables.users == t2.users
    ensures Valid(done.tables) && GroupsDistinct(done.tables.groups)
  {
    hide Valid, GroupDone, GroupKept, GroupsDistinct, Of, NamesOf, TagsOf;
  }

  lemma GrantsReady(s: Tables, t: Tables, t2: Tables, done: Grouped, withPasswords: bool, bak: Backup, index: Index, a: nat, row: AccountRow)
    requires Restorable(s) && Exports(s, withPasswords, bak, index) && KeysPlaced(s, t2)
    requires GroupsImported(t2, done, Directory(t2), bak.groups) && ExportsAccount(s, withPasswords, a, row)
    requires RowOf(done.tables, AccountIn(s, t2, a))
          == RestoredRow(s, t, done.tables, a, row.sharedIds, LinksAfter(s, done.tables, a, LinksBefore(s, t, a)))
    ensures GrantInPlace(done.tables, Directory(t2), done.ids, row)
  {
    hide UserGood, GroupGood, GroupsImported, AccountKey, IsTrimmed, GroupsDistinct, UsersRestored, Directory, Exports,
         Lookup, LookupGroups, CleanIds, CleanRoles, FindGroup, Lower, Of, NamesOf, TagsOf, DiscordIds, NamesOfGroups, Elems, GroupIn,
         FindAccount, RolesGood, OwnName, OtherNames, HeldRow, Lists, GroupRestored, UsersIn, GroupsIn, CarriedAccount, RestoredRow, LinksAfter, LinksBefore;
    hide Valid;
    var r, b := done.tables, AccountIn(s, t2, a);
    if !row.restricted {
      assert AccountGood(s, a);
      GroupsOnly(t2, done, bak, b);
      KeyIndexed(r, row.username);
      RestorableValid(s);
      ExportedGrants(s, t2, withPasswords, a, row);
      RowRolesUsers(s, t, r, a, b, row.sharedIds);
      SameUsersIn(s, t2, r);
      LinksInRange(s, 0);
      DirectoryGood(t2);
      LookupAccepted(t2, r, Directory(t2), row.userIds);
      GroupsCarried(s, t2, done, withPasswords, bak, index);
      LinkedGroups(s, r, done.ids, row.groupNames, Of(s.links, a));
      GroupsExist(s, r, LookupGroups(done.ids, row.groupNames), Of(s.links, a));
    }
  }

  lemma RowRolesUsers(s: Tables, t: Tables, r: Tables, a: nat, b: nat, sharedIds: seq<string>)
    requires RowOf(r, b) == RestoredRow(s, t, r, a, sharedIds, LinksAfter(s, r, a, LinksBefore(s, t, a)))
    requires a in s.accounts && !s.accounts[a].restricted
    ensures Of(r.accessRoles, b) == Of(s.accessRoles, a) && Of(r.accessUsers, b) == UsersIn(s, r, Of(s.accessUsers, a))
    ensures Of(r.links, b) == GroupsIn(s, r, Of(s.links, a))
  {
    hide Of, NamesOf, TagsOf, CarriedAccount, HeldRow, OwnName, OtherNames, GroupsIn, UsersIn;
    var row := RowOf(r, b);
    assert row.roles == Of(r.accessRoles, b) && row.users == Of(r.accessUsers, b) && row.groups == Of(r.links, b);
  }

  lemma GroupsExist(s: Tables, r: Tables, ids: seq<nat>, gs: set<nat>)
    requires Elems(ids) == GroupsIn(s, r, gs) && gs <= s.groups.Keys
    requires forall g :: g in s.groups ==> GroupIn(s, r, g) > 0 && GroupIn(s, r, g) in r.groups
    ensures Elems(CleanIds(ids)) == GroupsIn(s, r, gs) && Elems(CleanIds(ids)) <= r.groups.Keys
  {
    hide GroupIn, CleanIds;
    forall i | i in ids
      ensures i > 0 && i in r.groups
    {
      assert i in Elems(ids);
    }
    PositiveIds(ids);
  }

  // ----- The theorem -----

  lemma AccountsArePlaced(s: Tables, t: Tables, t1: Tables, t2: Tables, withPasswords: bool, bak: Backup, index: Index)
    requires Restorable(s) && Compatible(s, t, withPasswords) && Exports(s, withPasswords, bak, index)
    requires Valid(t1) && UsersRestored(s, t1) && UsersOnly(t, t1, s.userIds.Keys)
    requires Imported(t1, t2, Directory(t1), bak.accounts)
    requires forall i :: 0 <= i < |bak.accounts| && i < |index.accounts| ==>
      RowAfter(t1, Directory(t1), bak.accounts[i]) == PlacedRow(s, t, t1, bak, index, i)
    ensures AccountsPlaced(s, t, t2, bak, index) && Directory(t2) == Directory(t1) && t2.groups == t.groups && t2.nextGroup == t.nextGroup
  {
    hide Valid, Restorable, UserGood, GroupGood, AccountGood, ExportsUser, ExportsAccount, ExportsGroup, AccountFits, NamesAgree, RowAfter,
         RestoredRow, LinksBefore, AccountKey, GroupsDistinct, RowOf, Lists, FindGroup;
    AccountsAside(t, t1, s.userIds.Keys);
    assert t2.users == t1.users && t2.userIds == t1.userIds && t2.groups == t1.groups && t2.nextGroup == t1.nextGroup;
    SameRestored(s, t1, t2);
    forall i | 0 <= i < |bak.accounts|
      ensures RowOf(t2, AccountIn(s, t2, index.accounts[i])) == PlacedRow(s, t, t2, bak, index, i)
    {
      AccountOfRow(s, withPasswords, bak, index, i);
      assert RowDone(t1, t2, Directory(t1), bak.accounts[i]);
      var a := index.accounts[i];
      RestoredSame(s, t, t1, t2, a, bak.accounts[i].sharedIds, LinksBefore(s, t, a), LinksBefore(s, t, a));
    }
    forall a | a in s.accounts
      ensures AccountKey(s.accounts[a].username) in t2.accountIds
    {
      var i := RowOfAccount(s, withPasswords, bak, index, a);
      assert RowDone(t1, t2, Directory(t1), bak.accounts[i]);
    }
  }

  lemma AccountOfRow(s: Tables, withPasswords: bool, bak: Backup, index: Index, i: nat)
    requires Exports(s, withPasswords, bak, index) && i < |bak.accounts|
    ensures i < |index.accounts| && index.accounts[i] in s.accounts && bak.accounts[i].username == s.accounts[index.accounts[i]].username
  {
    hide ExportsUser, ExportsGroup, NamesOf, TagsOf, Of;
    assert ExportsAccount(s, withPasswords, index.accounts[i], bak.accounts[i]);
  }

  lemma SameRestored(s: Tables, t1: Tables, t2: Tables)
    requires UsersRestored(s, t1) && t2.users == t1.users && t2.userIds == t1.userIds
    ensures UsersRestored(s, t2)
  {
    forall u | u in s.users
      ensures UserRestored(s, t2, u)
    {
      assert UserRestored(s, t1, u);
    }
  }

  lemma RowOfAccount(s: Tables, withPasswords: bool, bak: Backup, index: Index, a: nat) returns (i: nat)
    requires Exports(s, withPasswords, bak, index) && a in s.accounts
    ensures i < |bak.accounts| && i < |index.accounts| && index.accounts[i] == a && bak.accounts[i].username == s.accounts[a].username
  {
    hide ExportsUser, ExportsGroup, NamesOf, TagsOf, Of;
    assert a in Elems(index.accounts);
    i :| 0 <= i < |index.accounts| && index.accounts[i] == a;
    assert ExportsAccount(s, withPasswords, index.accounts[i], bak.accounts[i]);
  }

  /** Importing an export of s on any host it fits leaves every user, account and group of s
      as it was, up to ids, although the passes clear and overwrite one another, but for what
      RestoredRow and CarriedGroup say of revoked recipients and descriptions; and it leaves
      nothing that neither host had. */
  lemma ImportRestores(s: Tables, t: Tables, withPasswords: bool, bak: Backup, index: Index)
    requires Restorable(s) && Compatible(s, t, withPasswords) && Exports(s, withPasswords, bak, index)
    ensures Restored(s, t, Import(t, bak), bak, index) && NothingElse(s, t, Import(t, bak))
  {
    hide Valid, Restorable, Compatible, Exports, AccountsPlaced, KeysPlaced, GroupsImported, Imported, RowAfter, RestoredRow, UsersOnly,
         UsersRestored, GroupsDistinct, Directory, ImportUsers, ImportAccounts, ImportGroups, GrantInPlace, AccountRestored, GroupRestored,
         FindGroup, GroupRowsApart, GroupRowsGood, DirectoryOf, PlacedRow;
    var t1 := ImportUsers(t, bak.users);
    var dir := Directory(t1);
    CompatibleValid(s, t, withPasswords);
    UsersCarried(s, t, withPasswords, bak, index);
    AccountsCarried(s, t, t1, withPasswords, bak, index);
    var t2 := ImportAccounts(t1, dir, bak.accounts);
    AccountsArePlaced(s, t, t1, t2, withPasswords, bak, index);
    ExportedGroupRows(s, withPasswords, bak, index);
    PlacedValid(s, t, t2, bak, index);
    DirectoryGood(t2);
    ImportGroupsAre(t2, dir, bak.groups);
    var done := ImportGroups(t2, dir, bak.groups);
    GroupsCarried(s, t2, done, withPasswords, bak, index);
    forall i | 0 <= i < |bak.accounts|
      ensures i < |index.accounts| && AccountRestored(s, t, done.tables, index.accounts[i], bak.accounts[i].sharedIds)
      ensures GrantInPlace(done.tables, dir, done.ids, bak.accounts[i])
    {
      AccountCarried(s, t, t2, done, withPasswords, bak, index, i);
    }
    GrantsSame(done.tables, dir, done.ids, bak.accounts);
    assert Import(t, bak) == done.tables;
    GroupsOnly(t2, done, bak, 0);
    SameRestored(s, t2, done.tables);
    FindSame(t, t2);
    forall g | g in s.groups
      ensures GroupRestored(s, t, done.tables, g)
    {
      SameGroupRestored(s, t, t2, done.tables, g);
    }
    IdsCarried(s, t, t1, t2, done.tables, withPasswords, bak, index);
  }

  lemma SameGroupRestored(s: Tables, t: Tables, t2: Tables, r: Tables, g: nat)
    requires GroupRestored(s, t2, r, g) && forall name :: FindGroup(t2, name) == FindGroup(t, name)
    ensures GroupRestored(s, t, r, g)
  {
    hide FindGroup, Of;
  }

  lemma CompatibleValid(s: Tables, t: Tables, withPasswords: bool)
    requires Compatible(s, t, withPasswords)
    ensures Valid(t)
  {
  }

  lemma PlacedValid(s: Tables, t: Tables, t2: Tables, bak: Backup, index: Index)
    requires AccountsPlaced(s, t, t2, bak, index)
    ensures KeysPlaced(s, t2) && |index.accounts| == |bak.accounts| && Valid(t2) && GroupsDistinct(t2.groups) && UsersRestored(s, t2)
  {
  }

  lemma FindSame(t: Tables, t2: Tables)
    requires t2.groups == t.groups && t2.nextGroup == t.nextGroup
    ensures forall name :: FindGroup(t2, name) == FindGroup(t, name)
  {
  }

  lemma IdsCarried(s: Tables, t: Tables, t1: Tables, t2: Tables, r: Tables, withPasswords: bool, bak: Backup, index: Index)
    requires UsersOnly(t, t1, s.userIds.Keys) && Imported(t1, t2, Directory(t1), bak.accounts)
    requires Restorable(s) && Exports(s, withPasswords, bak, index)
    requires r.userIds == t2.userIds && r.accountIds == t2.accountIds
    ensures r.userIds.Keys == t.userIds.Keys + s.userIds.Keys
    ensures forall d :: d in t.userIds ==> r.userIds[d] == t.userIds[d]
    ensures r.accountIds.Keys == t.accountIds.Keys + s.accountIds.Keys
    ensures forall k :: k in t.accountIds ==> r.accountIds[k] == t.accountIds[k]
  {
    hide Valid, Restorable, Exports, RowDone, RowFor, RowKeys, RowOf;
    RestorableValid(s);
    ExportedRowsApart(s, withPasswords, bak, index);
    AccountsAside(t, t1, s.userIds.Keys);
    assert t2.userIds == t1.userIds;
  }
}
