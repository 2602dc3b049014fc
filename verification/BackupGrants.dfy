// The last pass of an import: the grants of open accounts with groups, written again now that
// the groups exist. It decides what grants such an account ends with, whatever the backup says.
module BackupGrants {
  import opened AccessGrants
  import opened BackupAccounts
  import opened BackupOps
  import opened BackupSound
  import opened DefaultGroup
  import opened Roles
  import opened StoreOps
  import opened StoreRuns
  import opened StoreTidy
  import opened Tables
  import opened Text
  import opened Wrappers

  /** The row grants to account a in the last pass. */
  predicate GrantsTo(t: Tables, row: AccountRow, a: nat) {
    !row.restricted && row.groupNames != [] && FindAccount(t, row.username) == Some(a)
  }

  ghost predicate IdsIn(ids: map<string, nat>, groups: set<nat>) {
    forall k :: k in ids ==> ids[k] in groups && ids[k] > 0
  }

  /** The account's grants are those of the row. */
  ghost predicate Granted(t: Tables, a: nat, dir: map<string, nat>, ids: map<string, nat>, row: AccountRow) {
    var after := RowOf(t, a);
    && after.roles == Elems(CleanRoles(row.roles))
    && after.users == Elems(Lookup(dir, row.userIds))
    && after.groups == Elems(LookupGroups(ids, row.groupNames))
  }

  lemma {:induction false} GroupsKnown(t: Tables, ids: map<string, nat>, names: seq<string>)
    requires IdsIn(ids, t.groups.Keys)
    ensures forall g :: g in LookupGroups(ids, names) ==> g in t.groups && g > 0
  {
    if names != [] {
      GroupsKnown(t, ids, names[..|names| - 1]);
    }
  }

  /** Nothing but account a's row may differ. */
  ghost predicate GrantsOnly(t: Tables, t': Tables, a: nat) {
    Valid(t') && Changes(t, t', a, RowOf(t', a))
  }

  lemma GrantRow(t: Tables, dir: map<string, nat>, ids: map<string, nat>, row: AccountRow, a: nat)
    requires Valid(t) && DirectoryOf(dir, t) && IdsIn(ids, t.groups.Keys) && GrantsTo(t, row, a)
    ensures var t' := ImportGrant(t, dir, ids, row);
      GrantsOnly(t, t', a) && Granted(t', a, dir, ids, row)
  {
    hide Valid, DirectoryOf, IdsIn, RowOf, FindAccount, Lookup, LookupGroups, SetAccountAccess, CleanIds, CleanRoles, Elems;
    FoundIn(t, row.username, a);
    LookupKnown(t, dir, row.userIds);
    GroupsKnown(t, ids, row.groupNames);
    PositiveIds(Lookup(dir, row.userIds));
    PositiveIds(LookupGroups(ids, row.groupNames));
    AllIn(Lookup(dir, row.userIds), t.users.Keys);
    AllIn(LookupGroups(ids, row.groupNames), t.groups.Keys);
    AccessStep(t, a, row.roles, Lookup(dir, row.userIds), LookupGroups(ids, row.groupNames));
  }

  lemma AllIn(xs: seq<nat>, known: set<nat>)
    requires forall x :: x in xs ==> x in known
    ensures Elems(xs) <= known
  {
  }

  lemma FoundIn(t: Tables, name: string, a: nat)
    requires Valid(t) && FindAccount(t, name) == Some(a)
    ensures a in t.accounts
  {
    hide AccountKey;
  }

  lemma SameFound(t: Tables, t': Tables)
    requires t'.accountIds == t.accountIds
    ensures forall name :: FindAccount(t', name) == FindAccount(t, name)
  {
    hide AccountKey;
  }

  lemma NoGrant(t: Tables, dir: map<string, nat>, ids: map<string, nat>, row: AccountRow)
    requires forall a: nat :: !GrantsTo(t, row, a)
    ensures ImportGrant(t, dir, ids, row) == t
  {
    hide FindAccount, SetAccountAccess, Lookup, LookupGroups;
    if FindAccount(t, row.username).Some? {
      assert !GrantsTo(t, row, FindAccount(t, row.username).value);
    }
  }

  /** What the pass keeps, row by row. */
  ghost predicate Kept(t: Tables, t': Tables) {
    && Valid(t') && WorldOf(t') == WorldOf(t) && t'.accountIds == t.accountIds
  }

  lemma OneGrant(t: Tables, dir: map<string, nat>, ids: map<string, nat>, row: AccountRow, a: nat)
    requires Valid(t) && DirectoryOf(dir, t) && IdsIn(ids, t.groups.Keys)
    ensures var t' := ImportGrant(t, dir, ids, row);
      && Kept(t, t')
      && if GrantsTo(t, row, a) then Granted(t', a, dir, ids, row) else RowOf(t', a) == RowOf(t, a)
  {
    hide Valid, RowOf, GrantsTo, Granted, DirectoryOf, IdsIn, ImportGrant;
    if b: nat :| GrantsTo(t, row, b) {
      GrantRow(t, dir, ids, row, b);
      OneAccount(t, row, a, b);
    } else {
      NoGrant(t, dir, ids, row);
    }
  }

  lemma OneAccount(t: Tables, row: AccountRow, a: nat, b: nat)
    requires GrantsTo(t, row, b)
    ensures GrantsTo(t, row, a) <==> a == b
  {
  }

  lemma KeptThen(t: Tables, t1: Tables, t2: Tables, dir: map<string, nat>, ids: map<string, nat>)
    requires Kept(t, t1)
    ensures DirectoryOf(dir, t) ==> DirectoryOf(dir, t1)
    ensures IdsIn(ids, t.groups.Keys) ==> IdsIn(ids, t1.groups.Keys)
    ensures Kept(t1, t2) ==> Kept(t, t2)
    ensures forall row, a :: GrantsTo(t1, row, a) <==> GrantsTo(t, row, a)
  {
    hide Valid, FindAccount;
    SameFound(t, t1);
  }

  /** Row i is the last of the rows that grants to the account. */
  ghost predicate LastTo(t: Tables, rows: seq<AccountRow>, a: nat, i: nat) {
    && i < |rows| && GrantsTo(t, rows[i], a)
    && forall j :: i < j < |rows| ==> !GrantsTo(t, rows[j], a)
  }

  /** The last row that grants to an account decides, and an account that no row grants to stays
      as it is. */
  ghost predicate Passed(t: Tables, t': Tables, dir: map<string, nat>, ids: map<string, nat>, rows: seq<AccountRow>, a: nat) {
    && Kept(t, t')
    && (forall i: nat :: i < |rows| && LastTo(t, rows, a, i) ==> Granted(t', a, dir, ids, rows[i]))
    && ((forall i :: 0 <= i < |rows| ==> !GrantsTo(t, rows[i], a)) ==> RowOf(t', a) == RowOf(t, a))
  }

  lemma PassedOne(t: Tables, t1: Tables, t2: Tables, dir: map<string, nat>, ids: map<string, nat>, rows: seq<AccountRow>, a: nat)
    requires rows != [] && Passed(t, t1, dir, ids, rows[..|rows| - 1], a) && Kept(t, t2)
    requires var row := rows[|rows| - 1];
      if GrantsTo(t, row, a) then Granted(t2, a, dir, ids, row) else RowOf(t2, a) == RowOf(t1, a)
    ensures Passed(t, t2, dir, ids, rows, a)
  {
    hide Kept, RowOf, GrantsTo, Granted, LastTo;
    var last := |rows| - 1;
    forall i: nat | i < |rows| && LastTo(t, rows, a, i)
      ensures Granted(t2, a, dir, ids, rows[i])
    {
      StillLast(t, rows, a, i);
      if i < last {
        SameGranted(t1, t2, a, dir, ids, rows[i]);
      }
    }
    if forall i :: 0 <= i < |rows| ==> !GrantsTo(t, rows[i], a) {
      assert forall i :: 0 <= i < last ==> rows[..last][i] == rows[i];
    }
  }

  lemma StillLast(t: Tables, rows: seq<AccountRow>, a: nat, i: nat)
    requires LastTo(t, rows, a, i)
    ensures var last := |rows| - 1;
      && GrantsTo(t, rows[i], a)
      && (i < last ==> LastTo(t, rows[..last], a, i) && !GrantsTo(t, rows[last], a) && rows[..last][i] == rows[i])
  {
    hide GrantsTo;
  }

  lemma SameGranted(t: Tables, t': Tables, a: nat, dir: map<string, nat>, ids: map<string, nat>, row: AccountRow)
    requires RowOf(t', a) == RowOf(t, a) && Granted(t, a, dir, ids, row)
    ensures Granted(t', a, dir, ids, row)
  {
    hide RowOf, Elems;
  }

  /** The pass row by row. */
  lemma {:induction false} GrantsAre(t: Tables, dir: map<string, nat>, ids: map<string, nat>, rows: seq<AccountRow>, a: nat)
    requires Valid(t) && DirectoryOf(dir, t) && IdsIn(ids, t.groups.Keys)
    ensures Passed(t, ImportGrants(t, dir, ids, rows), dir, ids, rows, a)
    decreases |rows|
  {
    hide Valid, RowOf, GrantsTo, Granted, DirectoryOf, IdsIn, ImportGrant, Passed, Kept;
    if rows == [] {
      PassedNone(t, dir, ids, a);
    } else {
      var last := |rows| - 1;
      GrantsAre(t, dir, ids, rows[..last], a);
      var before := ImportGrants(t, dir, ids, rows[..last]);
      PassedKept(t, before, dir, ids, rows[..last], a);
      KeptThen(t, before, ImportGrant(before, dir, ids, rows[last]), dir, ids);
      OneGrant(before, dir, ids, rows[last], a);
      PassedOne(t, before, ImportGrant(before, dir, ids, rows[last]), dir, ids, rows, a);
    }
  }

  lemma PassedNone(t: Tables, dir: map<string, nat>, ids: map<string, nat>, a: nat)
    requires Valid(t)
    ensures Passed(t, t, dir, ids, [], a)
  {
    hide Valid, GrantsTo, Granted, RowOf;
  }

  lemma PassedKept(t: Tables, t': Tables, dir: map<string, nat>, ids: map<string, nat>, rows: seq<AccountRow>, a: nat)
    requires Passed(t, t', dir, ids, rows, a)
    ensures Kept(t, t') && Valid(t')
  {
    hide Valid, GrantsTo, Granted, RowOf;
  }

  // ----- The directories of a whole import -----

  /** Users stay, and so do groups, if there are no fewer. */
  ghost predicate GroupsGrow(t: Tables, t': Tables) {
    && t'.users == t.users && t.groups.Keys <= t'.groups.Keys
    && (GroupsNumbered(t.groups, t.nextGroup) ==> GroupsNumbered(t'.groups, t'.nextGroup))
  }

  lemma CreatedIn(t: Tables, name: string, row: GroupRow)
    ensures var (t', g) := CreateGroup(t, name, row.description, row.webRole, row.commands);
      GroupsGrow(t, t') && (g.Some? && GroupsNumbered(t.groups, t.nextGroup) ==> g.value in t'.groups && g.value > 0)
  {
    hide FindGroup, Trim, NormalizeWebRole, NormalizeCommands, IsDefaultGroupName, NameTaken;
  }

  lemma UpdatedIn(t: Tables, g: nat, name: string, row: GroupRow)
    ensures var (t', ok) := UpdateGroupMeta(t, g, name, row.description, row.webRole, row.commands);
      GroupsGrow(t, t') && (ok ==> g in t'.groups)
  {
    hide Trim, NormalizeWebRole, NormalizeCommands, IsDefaultGroupName, IsDefaultGroup, NameTaken;
  }

  lemma PlacedGroupIn(t: Tables, name: string, row: GroupRow)
    requires GroupsNumbered(t.groups, t.nextGroup)
    ensures var (t', g) := PlaceGroup(t, name, row);
      GroupsGrow(t, t') && (g.Some? ==> g.value in t'.groups && g.value > 0)
  {
    hide FindGroup, CreateGroup, UpdateGroupMeta, GroupsNumbered, GroupsGrow;
    FindGroupIs(t, name);
    CreatedIn(t, name, row);
    if FindGroup(t, name).Some? {
      UpdatedIn(t, FindGroup(t, name).value, name, row);
    }
  }

  lemma GroupIdsStep(t: Grouped, dir: map<string, nat>, row: GroupRow)
    requires GroupsNumbered(t.tables.groups, t.tables.nextGroup) && IdsIn(t.ids, t.tables.groups.Keys)
    ensures var t' := ImportGroup(t, dir, row);
      && t'.tables.users == t.tables.users && GroupsNumbered(t'.tables.groups, t'.tables.nextGroup)
      && IdsIn(t'.ids, t'.tables.groups.Keys)
  {
    hide Trim, Lower, PlaceGroup, ReplaceGroupMembership, ReplaceGroupAccountLinks, Lookup, LookupAccounts, GroupsNumbered;
    var name := Trim(row.name);
    PlacedGroupIn(t.tables, name, row);
    var (t1, g) := PlaceGroup(t.tables, name, row);
    if g.Some? {
      SetMembersAside(t1, g.value, Lookup(dir, row.memberIds), row.memberRoles);
      var t2 := ReplaceGroupMembership(t1, g.value, Lookup(dir, row.memberIds), row.memberRoles).0;
      SetLinksAside(t2, g.value, LookupAccounts(t2, row.usernames));
    }
  }

  lemma {:induction false} GroupIds(t: Tables, dir: map<string, nat>, rows: seq<GroupRow>)
    requires GroupsNumbered(t.groups, t.nextGroup)
    ensures var t' := ImportGroups(t, dir, rows);
      && t'.tables.users == t.users && GroupsNumbered(t'.tables.groups, t'.tables.nextGroup)
      && IdsIn(t'.ids, t'.tables.groups.Keys)
    decreases |rows|
  {
    hide ImportGroup, GroupsNumbered;
    if rows != [] {
      GroupIds(t, dir, rows[..|rows| - 1]);
      GroupIdsStep(ImportGroups(t, dir, rows[..|rows| - 1]), dir, rows[|rows| - 1]);
    }
  }

  /** Whatever a backup says, an account ends with the roles, users and groups of the last open
      row for it that names groups: its users found by Discord id, its groups by the rows the
      groups pass placed. */
  lemma ImportedGrants(t: Tables, bak: Backup, i: nat, a: nat)
    requires Sound(t) && LastTo(Import(t, bak), bak.accounts, a, i)
    ensures var dir := Directory(ImportUsers(t, bak.users));
      var grouped := ImportGroups(ImportAccounts(ImportUsers(t, bak.users), dir, bak.accounts), dir, bak.groups);
      Granted(Import(t, bak), a, dir, grouped.ids, bak.accounts[i])
  {
    hide Valid, WellNamed, LockedAt, GroupsTidy, RolesTidy, RowOf, GrantsTo, Granted, IdsIn, DirectoryOf,
         ImportUsers, ImportAccounts, ImportGroups, ImportGrants, Directory, RowsTidy;
    var t1 := ImportUsers(t, bak.users);
    var dir := Directory(t1);
    var t2 := ImportAccounts(t1, dir, bak.accounts);
    var grouped := ImportGroups(t2, dir, bak.groups);
    ImportUsersSound(t, bak.users);
    DirectoryFits(t1);
    ImportAccountsSound(t1, dir, bak.accounts);
    SoundNumbers(t2);
    ImportGroupsSound(t2, dir, bak.groups);
    GroupIds(t2, dir, bak.groups);
    SameUsers(dir, t1, grouped.tables);
    GrantsAre(grouped.tables, dir, grouped.ids, bak.accounts, a);
    KeptThen(grouped.tables, Import(t, bak), t, dir, grouped.ids);
  }

  lemma SoundNumbers(t: Tables)
    requires Valid(t)
    ensures GroupsNumbered(t.groups, t.nextGroup)
  {
  }

  lemma SameUsers(dir: map<string, nat>, t: Tables, t': Tables)
    requires DirectoryOf(dir, t) && t'.users == t.users
    ensures DirectoryOf(dir, t')
  {
  }
}
