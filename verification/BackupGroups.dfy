// The groups stage of an import, and the last pass over the grants, which finds everything
// already in place.
module BackupGroups {
  import opened Access
  import opened BackupAccounts
  import opened BackupOps
  import opened DefaultGroup
  import opened Roles
  import opened StoreOps
  import opened Tables
  import opened Text
  import opened Wrappers

  /** Names are trimmed and differ in more than case. */
  ghost predicate GroupsDistinct(groups: Groups) {
    && NamesTrimmed(groups)
    && forall g, h :: g in groups && h in groups && Lower(groups[g].name) == Lower(groups[h].name) ==> g == h
  }

  ghost predicate GroupRowGood(row: GroupRow) {
    && row.name != "" && IsTrimmed(row.name)
    && NormalizeWebRole(row.webRole) == Some(row.webRole)
    && NormalizeCommands(row.commands).Some?
    && (IsDefaultGroupName(row.name) ==>
          row.name == DEFAULT_GROUP_NAME && row.webRole == "" && NormalizeCommands(row.commands).value == KNOWN_COMMANDS)
  }

  /** The group a row leaves: creating keeps the description as given, updating trims it. */
  function GroupOfRow(t: Tables, row: GroupRow): Group {
    Group(row.name, if FindGroup(t, row.name).Some? then Trim(row.description) else row.description, row.webRole,
          match NormalizeCommands(row.commands) case Some(commands) => commands case None => {})
  }

  function GroupFor(t: Tables, name: string): nat {
    match FindGroup(t, name)
    case None => t.nextGroup
    case Some(g) => g
  }

  /** The lookup finds the one group of that name. */
  lemma FindIs(t: Tables, name: string)
    requires GroupsNumbered(t.groups, t.nextGroup) && GroupsDistinct(t.groups) && name != "" && IsTrimmed(name)
    ensures forall g :: g in t.groups && Lower(t.groups[g].name) == Lower(name) ==> FindGroup(t, name) == Some(g)
    ensures FindGroup(t, name).Some? ==>
      FindGroup(t, name).value in t.groups && Lower(t.groups[FindGroup(t, name).value].name) == Lower(name) && FindGroup(t, name).value > 0
    ensures GroupFor(t, name) > 0
  {
    hide Lower, Trim, FindGroup;
    TrimOfTrimmed(name);
    FindGroupIs(t, name);
  }

  lemma PutGroupDistinct(t: Tables, row: GroupRow)
    requires GroupsNumbered(t.groups, t.nextGroup) && GroupsDistinct(t.groups) && row.name != "" && IsTrimmed(row.name)
    ensures var groups := t.groups[GroupFor(t, row.name) := GroupOfRow(t, row)];
      && GroupsDistinct(groups)
      && groups.Keys == t.groups.Keys + {GroupFor(t, row.name)}
      && GroupsNumbered(groups, if FindGroup(t, row.name).Some? then t.nextGroup else t.nextGroup + 1)
  {
    hide Lower, FindGroup, IsTrimmed;
    FindIs(t, row.name);
  }

  /** A row finds its group or creates it, and stores exactly what it says. */
  lemma PlaceGroupStep(t: Tables, row: GroupRow)
    requires GroupsNumbered(t.groups, t.nextGroup) && GroupsDistinct(t.groups) && GroupRowGood(row)
    ensures var g := GroupFor(t, row.name);
      PlaceGroup(t, row.name, row)
      == (t.(groups := t.groups[g := GroupOfRow(t, row)],
             nextGroup := if FindGroup(t, row.name).Some? then t.nextGroup else t.nextGroup + 1), Some(g))
  {
    hide Lower, Trim, FindGroup, IsDefaultGroupName, NormalizeWebRole, NormalizeCommands, IsTrimmed;
    TrimOfTrimmed(row.name);
    FindIs(t, row.name);
    DefaultPermissions();
    DefaultIsTrimmed();
    TrimmedDefault(row.name);
    match FindGroup(t, row.name)
    case None =>
      if IsDefaultGroupName(row.name) {
        DefaultByCase(t, row.name);
      }
      assert !NameTaken(t, row.name, 0);
    case Some(g) =>
      TrimmedDefault(t.groups[g].name);
      assert IsDefaultGroup(t, g) <==> IsDefaultGroupName(row.name);
      assert !NameTaken(t, row.name, g);
  }

  /** A default name is found exactly when the default group is. */
  lemma DefaultByCase(t: Tables, name: string)
    requires GroupsNumbered(t.groups, t.nextGroup) && GroupsDistinct(t.groups) && name != "" && IsTrimmed(name)
    requires FindGroup(t, name).None? && IsDefaultGroupName(name)
    ensures FindGroup(t, DEFAULT_GROUP_NAME).None?
  {
    hide Trim, Lower, FindGroup, IsTrimmed;
    DefaultIsTrimmed();
    TrimmedDefault(name);
    FindIs(t, name);
    FindIs(t, DEFAULT_GROUP_NAME);
  }

  // ----- Members and links -----

  lemma {:induction false} AccountsKnown(t: Tables, usernames: seq<string>)
    requires Valid(t)
    ensures forall a :: a in LookupAccounts(t, usernames) ==> a in t.accounts && a > 0
  {
    hide Valid, FindAccount;
    if usernames != [] {
      var name := usernames[|usernames| - 1];
      AccountsKnown(t, usernames[..|usernames| - 1]);
      if FindAccount(t, name).Some? {
        FoundAccount(t, name);
      }
    }
  }

  lemma {:induction false} SameAccounts(t: Tables, s: Tables, usernames: seq<string>)
    requires t.accountIds == s.accountIds
    ensures LookupAccounts(t, usernames) == LookupAccounts(s, usernames)
  {
    hide AccountKey;
    if usernames != [] {
      SameAccounts(t, s, usernames[..|usernames| - 1]);
    }
  }

  lemma MembersStep(t: Tables, dir: map<string, nat>, g: nat, row: GroupRow)
    requires g in t.groups && DirectoryOf(dir, t)
    ensures ReplaceGroupMembership(t, g, Lookup(dir, row.memberIds), row.memberRoles)
      == (t.(memberUsers := Put(t.memberUsers, g, Elems(Lookup(dir, row.memberIds))),
             memberRoles := Put(t.memberRoles, g, Elems(CleanRoles(row.memberRoles)))), true)
  {
    hide CleanRoles, CleanIds, Lookup, Put;
    LookupKnown(t, dir, row.memberIds);
    PositiveIds(Lookup(dir, row.memberIds));
  }

  lemma LinksStep(t: Tables, g: nat, usernames: seq<string>)
    requires g in t.groups && Valid(t)
    ensures ReplaceGroupAccountLinks(t, g, LookupAccounts(t, usernames))
      == (t.(links := PutFor(t.links, g, Elems(LookupAccounts(t, usernames)))), true)
  {
    hide Valid, CleanIds, LookupAccounts, PutFor;
    AccountsKnown(t, usernames);
    PositiveIds(LookupAccounts(t, usernames));
  }

  /** What one row does: its group, members and links, and nothing else. */
  function AfterGroup(t: Tables, dir: map<string, nat>, row: GroupRow): Tables {
    var g := GroupFor(t, row.name);
    t.(groups := t.groups[g := GroupOfRow(t, row)],
       nextGroup := if FindGroup(t, row.name).Some? then t.nextGroup else t.nextGroup + 1,
       memberUsers := Put(t.memberUsers, g, Elems(Lookup(dir, row.memberIds))),
       memberRoles := Put(t.memberRoles, g, Elems(CleanRoles(row.memberRoles))),
       links := PutFor(t.links, g, Elems(LookupAccounts(t, row.usernames))))
  }

  lemma AfterGroupValid(t: Tables, dir: map<string, nat>, row: GroupRow)
    requires Valid(t) && DirectoryOf(dir, t) && GroupsDistinct(t.groups) && row.name != "" && IsTrimmed(row.name)
    ensures Valid(AfterGroup(t, dir, row)) && GroupsDistinct(AfterGroup(t, dir, row).groups)
  {
    hide UsersIndexed, AccountsIndexed, OwnersIn, NamesFiled, NamesRefer, TagsFiled, TagsRefer, Lookup, LookupAccounts, CleanRoles,
         FindGroup, GroupOfRow, GroupsDistinct, GroupFor, Lower, IsTrimmed, GroupsNumbered;
    PutGroupDistinct(t, row);
    LookupKnown(t, dir, row.memberIds);
    AccountsKnown(t, row.usernames);
  }

  lemma ImportGroupStep(t: Grouped, dir: map<string, nat>, row: GroupRow)
    requires Valid(t.tables) && DirectoryOf(dir, t.tables) && GroupsDistinct(t.tables.groups) && GroupRowGood(row)
    ensures ImportGroup(t, dir, row)
         == Grouped(AfterGroup(t.tables, dir, row), t.ids[Lower(row.name) := GroupFor(t.tables, row.name)])
  {
    hide Valid, PlaceGroup, ReplaceGroupMembership, ReplaceGroupAccountLinks, Lookup, LookupAccounts, CleanRoles, Put, PutFor,
         FindGroup, GroupOfRow, GroupsDistinct, GroupFor, Lower, IsTrimmed, Trim, Elems;
    TrimOfTrimmed(row.name);
    ValidNumbers(t.tables);
    PlaceGroupStep(t.tables, row);
    PutGroupDistinct(t.tables, row);
    var g := GroupFor(t.tables, row.name);
    var t1 := PlaceGroup(t.tables, row.name, row).0;
    MembersStep(t1, dir, g, row);
    var t2 := ReplaceGroupMembership(t1, g, Lookup(dir, row.memberIds), row.memberRoles).0;
    SameAccounts(t2, t.tables, row.usernames);
    MembersValid(t.tables, t1, t2, dir, g, row);
    LinksStep(t2, g, row.usernames);
  }

  lemma ValidNumbers(t: Tables)
    requires Valid(t)
    ensures GroupsNumbered(t.groups, t.nextGroup)
  {
  }

  lemma MembersValid(t: Tables, t1: Tables, t2: Tables, dir: map<string, nat>, g: nat, row: GroupRow)
    requires Valid(t) && DirectoryOf(dir, t)
    requires t1 == t.(groups := t1.groups, nextGroup := t1.nextGroup) && GroupsNumbered(t1.groups, t1.nextGroup)
    requires t.groups.Keys <= t1.groups.Keys && g in t1.groups
    requires t2 == t1.(memberUsers := Put(t1.memberUsers, g, Elems(Lookup(dir, row.memberIds))),
                       memberRoles := Put(t1.memberRoles, g, Elems(CleanRoles(row.memberRoles))))
    ensures Valid(t2)
  {
    hide UsersIndexed, AccountsIndexed, OwnersIn, NamesFiled, NamesRefer, TagsFiled, TagsRefer, Lookup, CleanRoles, GroupsNumbered;
    LookupKnown(t, dir, row.memberIds);
  }

  // ----- The stage -----

  ghost predicate GroupRowsApart(rows: seq<GroupRow>) {
    forall i, j :: 0 <= i < |rows| && 0 <= j < |rows| && i != j ==> Lower(rows[i].name) != Lower(rows[j].name)
  }

  ghost predicate GroupRowsGood(rows: seq<GroupRow>) {
    forall i :: 0 <= i < |rows| ==> GroupRowGood(rows[i])
  }

  /** The row's group is there under `g`, with the row's members and accounts; where t had a
      group of that name, it is that one. */
  ghost predicate GroupDone(t: Tables, t': Tables, dir: map<string, nat>, row: GroupRow, g: nat) {
    && g in t'.groups && t'.groups[g] == GroupOfRow(t, row)
    && (FindGroup(t, row.name).Some? ==> g == FindGroup(t, row.name).value)
    && (FindGroup(t, row.name).None? ==> g !in t.groups)
    && Of(t'.memberUsers, g) == Elems(Lookup(dir, row.memberIds))
    && Of(t'.memberRoles, g) == Elems(CleanRoles(row.memberRoles))
    && Having(t'.links, g) == Elems(LookupAccounts(t, row.usernames))
  }

  ghost predicate GroupKept(t: Tables, t': Tables, g: nat) {
    && (g in t'.groups <==> g in t.groups)
    && (g in t.groups ==> t'.groups[g] == t.groups[g])
    && Of(t'.memberUsers, g) == Of(t.memberUsers, g) && Of(t'.memberRoles, g) == Of(t.memberRoles, g)
    && Having(t'.links, g) == Having(t.links, g)
  }

  function NameKeys(rows: seq<GroupRow>): set<string> {
    set i | 0 <= i < |rows| :: Lower(rows[i].name)
  }

  ghost predicate GroupsImported(t: Tables, done: Grouped, dir: map<string, nat>, rows: seq<GroupRow>) {
    var t' := done.tables;
    && Valid(t') && GroupsDistinct(t'.groups)
    && t' == t.(groups := t'.groups, nextGroup := t'.nextGroup, memberUsers := t'.memberUsers, memberRoles := t'.memberRoles,
                links := t'.links)
    && done.ids.Keys == NameKeys(rows)
    && (forall i :: 0 <= i < |rows| ==> Lower(rows[i].name) in done.ids && GroupDone(t, t', dir, rows[i], done.ids[Lower(rows[i].name)]))
    && (forall g: nat :: g !in done.ids.Values ==> GroupKept(t, t', g))
  }

  /** Before its turn a row's group is as it was in t. */
  lemma GroupUntouched(t: Tables, done: Grouped, dir: map<string, nat>, rows: seq<GroupRow>, n: nat)
    requires Valid(t) && GroupsDistinct(t.groups) && n < |rows| && GroupRowsApart(rows) && GroupRowsGood(rows)
    requires GroupsImported(t, done, dir, rows[..n])
    ensures FindGroup(done.tables, rows[n].name) == FindGroup(t, rows[n].name)
    ensures GroupFor(done.tables, rows[n].name) !in done.ids.Values
    ensures FindGroup(t, rows[n].name).None? ==> GroupFor(done.tables, rows[n].name) !in t.groups
  {
    hide Lower, FindGroup, IsTrimmed, Valid, Of, Having, Lookup, LookupAccounts, CleanRoles, NormalizeCommands, NormalizeWebRole,
         IsDefaultGroupName;
    var t', name := done.tables, rows[n].name;
    ValidNumbers(t);
    ValidNumbers(t');
    FindIs(t, name);
    FindIs(t', name);
    assert Lower(name) !in done.ids;
    forall k | k in done.ids
      ensures done.ids[k] in t'.groups && Lower(t'.groups[done.ids[k]].name) == k
    {
      var i :| 0 <= i < n && Lower(rows[..n][i].name) == k;
      assert GroupDone(t, t', dir, rows[..n][i], done.ids[k]);
    }
    if FindGroup(t, name).Some? {
      var g := FindGroup(t, name).value;
      FoundNotTaken(t, done, dir, rows, n, g);
      assert GroupKept(t, t', g);
    }
    if FindGroup(t', name).Some? {
      var g := FindGroup(t', name).value;
      assert GroupKept(t, t', g);
    } else if GroupFor(t', name) !in done.ids.Values {
      assert GroupKept(t, t', GroupFor(t', name));
    }
  }

  lemma FoundNotTaken(t: Tables, done: Grouped, dir: map<string, nat>, rows: seq<GroupRow>, n: nat, g: nat)
    requires GroupsNumbered(t.groups, t.nextGroup) && GroupsDistinct(t.groups)
    requires n < |rows| && GroupRowsApart(rows) && GroupRowsGood(rows)
    requires GroupsImported(t, done, dir, rows[..n])
    requires g in t.groups && Lower(t.groups[g].name) == Lower(rows[n].name)
    ensures g !in done.ids.Values
  {
    hide Lower, FindGroup, IsTrimmed, Valid, Of, Having, Lookup, LookupAccounts, CleanRoles, GroupOfRow;
    forall k | k in done.ids
      ensures done.ids[k] != g
    {
      var i :| 0 <= i < n && Lower(rows[..n][i].name) == k;
      assert GroupDone(t, done.tables, dir, rows[..n][i], done.ids[k]);
      assert GroupRowGood(rows[i]);
      TrimOfTrimmed(rows[i].name);
      GroupFromRow(t, rows[i].name, done.ids[k]);
    }
  }

  lemma GroupFromRow(t: Tables, name: string, g: nat)
    requires GroupsNumbered(t.groups, t.nextGroup)
    requires FindGroup(t, name).Some? ==> g == FindGroup(t, name).value
    requires FindGroup(t, name).None? ==> g !in t.groups
    ensures g in t.groups ==> Lower(t.groups[g].name) == Lower(Trim(name))
  {
    hide FindGroup, Lower, Trim;
    FindGroupIs(t, name);
  }

  lemma GroupStillDone(t: Tables, t': Tables, dir: map<string, nat>, last: GroupRow, row: GroupRow, g: nat)
    requires GroupDone(t, t', dir, row, g) && g != GroupFor(t', last.name)
    ensures GroupDone(t, AfterGroup(t', dir, last), dir, row, g)
  {
    hide FindGroup, Of, Having, Put, PutFor, Lookup, LookupAccounts, CleanRoles, Elems, GroupOfRow, GroupFor;
    AfterRows(t', dir, last, g);
  }

  lemma AfterRows(t: Tables, dir: map<string, nat>, row: GroupRow, g: nat)
    ensures var t', at := AfterGroup(t, dir, row), GroupFor(t, row.name);
      && Of(t'.memberUsers, g) == (if g == at then Elems(Lookup(dir, row.memberIds)) else Of(t.memberUsers, g))
      && Of(t'.memberRoles, g) == (if g == at then Elems(CleanRoles(row.memberRoles)) else Of(t.memberRoles, g))
      && Having(t'.links, g) == (if g == at then Elems(LookupAccounts(t, row.usernames)) else Having(t.links, g))
  {
    hide FindGroup, Of, Having, Put, PutFor, Lookup, LookupAccounts, CleanRoles, Elems, GroupOfRow, GroupFor;
    var at := GroupFor(t, row.name);
    OfPut(t.memberUsers, at, Elems(Lookup(dir, row.memberIds)), g);
    OfPut(t.memberRoles, at, Elems(CleanRoles(row.memberRoles)), g);
    HavingPutFor(t.links, at, Elems(LookupAccounts(t, row.usernames)), g);
  }

  lemma GroupStillKept(t: Tables, t': Tables, dir: map<string, nat>, last: GroupRow, g: nat)
    requires GroupKept(t, t', g) && g != GroupFor(t', last.name)
    ensures GroupKept(t, AfterGroup(t', dir, last), g)
  {
    hide FindGroup, Of, Having, Put, PutFor, Lookup, LookupAccounts, CleanRoles, Elems, GroupOfRow, GroupFor;
    AfterRows(t', dir, last, g);
  }

  lemma LastGroupDone(t: Tables, t': Tables, dir: map<string, nat>, row: GroupRow)
    requires FindGroup(t', row.name) == FindGroup(t, row.name) && t'.accountIds == t.accountIds
    requires FindGroup(t, row.name).None? ==> GroupFor(t', row.name) !in t.groups
    ensures GroupDone(t, AfterGroup(t', dir, row), dir, row, GroupFor(t', row.name))
  {
    hide FindGroup, Of, Having, Put, PutFor, Lookup, LookupAccounts, CleanRoles, Elems, Trim;
    AfterRows(t', dir, row, GroupFor(t', row.name));
    SameAccounts(t', t, row.usernames);
  }

  /** The rows before the last are still done after it. */
  lemma RestStillDone(t: Tables, done: Grouped, done2: Grouped, dir: map<string, nat>, rows: seq<GroupRow>, last: GroupRow, i: nat)
    requires GroupsImported(t, done, dir, rows) && i < |rows| && Lower(rows[i].name) != Lower(last.name)
    requires GroupFor(done.tables, last.name) !in done.ids.Values
    requires done2 == Grouped(AfterGroup(done.tables, dir, last), done.ids[Lower(last.name) := GroupFor(done.tables, last.name)])
    ensures Lower(rows[i].name) in done2.ids && GroupDone(t, done2.tables, dir, rows[i], done2.ids[Lower(rows[i].name)])
  {
    hide Valid, FindGroup, GroupFor, Lower, GroupDone, GroupKept, GroupsDistinct, AfterGroup, NameKeys;
    assert done.ids[Lower(rows[i].name)] in done.ids.Values;
    GroupStillDone(t, done.tables, dir, last, rows[i], done.ids[Lower(rows[i].name)]);
  }

  lemma RestStillKept(t: Tables, done: Grouped, done2: Grouped, dir: map<string, nat>, rows: seq<GroupRow>, last: GroupRow, h: nat)
    requires GroupsImported(t, done, dir, rows) && Lower(last.name) !in done.ids
    requires done2 == Grouped(AfterGroup(done.tables, dir, last), done.ids[Lower(last.name) := GroupFor(done.tables, last.name)])
    requires h !in done2.ids.Values
    ensures GroupKept(t, done2.tables, h)
  {
    hide Valid, FindGroup, GroupFor, Lower, GroupDone, GroupKept, GroupsDistinct, AfterGroup, NameKeys;
    assert done2.ids[Lower(last.name)] in done2.ids.Values;
    forall k | k in done.ids
      ensures done.ids[k] != h
    {
      assert done2.ids[k] == done.ids[k] && done2.ids[k] in done2.ids.Values;
    }
    GroupStillKept(t, done.tables, dir, last, h);
  }

  lemma ImportOneGroup(t: Tables, done: Grouped, dir: map<string, nat>, rows: seq<GroupRow>, n: nat)
    requires Valid(t) && DirectoryOf(dir, t) && GroupsDistinct(t.groups) && n < |rows| && GroupRowsApart(rows) && GroupRowsGood(rows)
    requires GroupsImported(t, done, dir, rows[..n])
    ensures GroupsImported(t, ImportGroup(done, dir, rows[n]), dir, rows[..n + 1])
  {
    hide Valid, FindGroup, GroupFor, Lower, GroupDone, GroupKept, GroupRowGood, GroupsDistinct, ImportGroup, NameKeys, Lookup, LookupAccounts, Put, PutFor,
         CleanRoles, GroupOfRow, AfterGroup, GroupRowsApart, GroupRowsGood, DirectoryOf;
    var row, t', g := rows[n], done.tables, GroupFor(done.tables, rows[n].name);
    GroupUntouched(t, done, dir, rows, n);
    RowIsGood(rows, n);
    SameDirectory(t, t', dir);
    GoodName(row);
    ImportGroupStep(done, dir, row);
    AfterGroupValid(t', dir, row);
    var done2 := ImportGroup(done, dir, row);
    AfterGroupAside(t', dir, row);
    LastGroupDone(t, t', dir, row);
    assert rows[..n + 1] == rows[..n] + [row];
    NameKeysLast(rows[..n], row);
    NewKey(rows, n, Lower(row.name));
    forall i | 0 <= i < n
      ensures Lower(rows[i].name) in done2.ids && GroupDone(t, done2.tables, dir, rows[i], done2.ids[Lower(rows[i].name)])
    {
      NamesDiffer(rows, i, n);
      RestStillDone(t, done, done2, dir, rows[..n], row, i);
    }
    forall h: nat | h !in done2.ids.Values
      ensures GroupKept(t, done2.tables, h)
    {
      RestStillKept(t, done, done2, dir, rows[..n], row, h);
    }
  }

  lemma RowIsGood(rows: seq<GroupRow>, n: nat)
    requires GroupRowsGood(rows) && n < |rows|
    ensures GroupRowGood(rows[n])
  {
  }

  lemma SameDirectory(t: Tables, t': Tables, dir: map<string, nat>)
    requires DirectoryOf(dir, t) && t'.users == t.users
    ensures DirectoryOf(dir, t')
  {
  }

  lemma NamesDiffer(rows: seq<GroupRow>, i: nat, n: nat)
    requires GroupRowsApart(rows) && i < n < |rows|
    ensures Lower(rows[i].name) != Lower(rows[n].name) && rows[..n][i] == rows[i]
  {
    hide Lower;
  }

  lemma AfterGroupAside(t: Tables, dir: map<string, nat>, row: GroupRow)
    ensures var t' := AfterGroup(t, dir, row);
      t' == t.(groups := t'.groups, nextGroup := t'.nextGroup, memberUsers := t'.memberUsers, memberRoles := t'.memberRoles,
               links := t'.links)
  {
    hide GroupFor, FindGroup, GroupOfRow, Put, PutFor, Elems, Lookup, LookupAccounts, CleanRoles;
  }

  lemma GoodName(row: GroupRow)
    requires GroupRowGood(row)
    ensures row.name != "" && IsTrimmed(row.name)
  {
  }

  lemma NameKeysLast(rows: seq<GroupRow>, last: GroupRow)
    ensures NameKeys(rows + [last]) == NameKeys(rows) + {Lower(last.name)}
  {
    hide Lower;
    assert (rows + [last])[|rows|] == last;
    forall i | 0 <= i < |rows|
      ensures (rows + [last])[i] == rows[i]
    {
    }
  }

  lemma NewKey(rows: seq<GroupRow>, n: nat, k: string)
    requires n < |rows| && GroupRowsApart(rows) && k == Lower(rows[n].name)
    ensures k !in NameKeys(rows[..n])
  {
    hide Lower;
  }

  /** The stage: every row's group ends as its row says; all others as they were. */
  lemma {:induction false} ImportGroupsAre(t: Tables, dir: map<string, nat>, rows: seq<GroupRow>)
    requires Valid(t) && DirectoryOf(dir, t) && GroupsDistinct(t.groups) && GroupRowsApart(rows) && GroupRowsGood(rows)
    ensures GroupsImported(t, ImportGroups(t, dir, rows), dir, rows)
  {
    hide Valid, GroupsImported, GroupRowGood, ImportGroup, Lower, GroupsDistinct;
    if rows == [] {
      NoGroupImported(t, dir);
    } else {
      var last := |rows| - 1;
      ImportGroupsAre(t, dir, rows[..last]);
      ImportOneGroup(t, ImportGroups(t, dir, rows[..last]), dir, rows, last);
      assert rows[..last + 1] == rows;
    }
  }

  lemma NoGroupImported(t: Tables, dir: map<string, nat>)
    requires Valid(t) && GroupsDistinct(t.groups)
    ensures GroupsImported(t, Grouped(t, map[]), dir, [])
  {
    hide Valid, GroupsDistinct, Of, Having;
    assert NameKeys([]) == {};
  }

  // ----- The last pass -----

  /** The grants of a row are already what the last pass would write. */
  ghost predicate GrantInPlace(t: Tables, dir: map<string, nat>, ids: map<string, nat>, row: AccountRow) {
    !row.restricted && row.groupNames != [] && FindAccount(t, row.username).Some? ==>
      var a := FindAccount(t, row.username).value;
      && a in t.accounts
      && Of(t.accessRoles, a) == Elems(CleanRoles(row.roles))
      && Of(t.accessUsers, a) == Elems(CleanIds(Lookup(dir, row.userIds)))
      && Elems(CleanIds(Lookup(dir, row.userIds))) <= t.users.Keys
      && Of(t.links, a) == Elems(CleanIds(LookupGroups(ids, row.groupNames)))
      && Elems(CleanIds(LookupGroups(ids, row.groupNames))) <= t.groups.Keys
  }

  lemma GrantSame(t: Tables, dir: map<string, nat>, ids: map<string, nat>, row: AccountRow)
    requires GrantInPlace(t, dir, ids, row)
    ensures ImportGrant(t, dir, ids, row) == t
  {
    hide Of, Put, CleanRoles, CleanIds, Lookup, LookupGroups, FindAccount, Elems, Accepted;
    if !row.restricted && row.groupNames != [] && FindAccount(t, row.username).Some? {
      var a := FindAccount(t, row.username).value;
      AcceptedAre(CleanIds(Lookup(dir, row.userIds)), t.users.Keys);
      AcceptedAre(CleanIds(LookupGroups(ids, row.groupNames)), t.groups.Keys);
      PutSame(t.accessRoles, a);
      PutSame(t.accessUsers, a);
      PutSame(t.links, a);
    }
  }

  /** Then the last pass changes nothing. */
  lemma {:induction false} GrantsSame(t: Tables, dir: map<string, nat>, ids: map<string, nat>, rows: seq<AccountRow>)
    requires forall i :: 0 <= i < |rows| ==> GrantInPlace(t, dir, ids, rows[i])
    ensures ImportGrants(t, dir, ids, rows) == t
  {
    hide GrantInPlace, ImportGrant;
    if rows != [] {
      GrantsSame(t, dir, ids, rows[..|rows| - 1]);
      GrantSame(t, dir, ids, rows[|rows| - 1]);
    }
  }
}
