// Single rows of a backup, whatever they hold: which ones change nothing, that space around
// their keys does not matter, and that names are added up to the first that is taken.
module BackupRows {
  import opened Access
  import opened BackupOps
  import opened DefaultGroup
  import opened StoreLaws
  import opened StoreOps
  import opened Tables
  import opened Text
  import opened Wrappers

  // ----- Rows that are skipped -----

  /** No account has this username, ignoring case and space around it. */
  ghost predicate Unknown(t: Tables, username: string) {
    forall a :: a in t.accounts ==> !EqualFold(Trim(t.accounts[a].username), Trim(username))
  }

  lemma UnknownIsNotFound(t: Tables, username: string)
    requires Valid(t) && Unknown(t, username)
    ensures FindAccount(t, username) == None && FindAccount(t, Trim(username)) == None
  {
    hide Valid, FindAccount, EqualFold, Trim;
    TrimTrims(username);
    TrimOfTrimmed(Trim(username));
    if FindAccount(t, username).Some? {
      FoundAccount(t, username, FindAccount(t, username).value);
    }
    if FindAccount(t, Trim(username)).Some? {
      FoundAccount(t, Trim(username), FindAccount(t, Trim(username)).value);
    }
  }

  /** A row for a new account without a password, open or restricted, changes nothing. */
  lemma BlankPasswordSkipped(t: Tables, dir: map<string, nat>, row: AccountRow)
    requires Valid(t) && Unknown(t, row.username) && Trim(row.password) == ""
    ensures ImportAccount(t, dir, row) == t
  {
    hide Valid, FindAccount, Unknown, Trim, AddAliases, ReplaceAliases, ReplaceTags, ReplaceCharacters, SetAccountAccess;
    UnknownIsNotFound(t, row.username);
    TrimTrims(row.username);
    TrimOfTrimmed(Trim(row.username));
  }

  /** Nor does a row without a username, or a restricted one whose owner is not stored or whose
      account is not his restricted one. */
  lemma UnusableSkipped(t: Tables, dir: map<string, nat>, row: AccountRow)
    requires Valid(t) && forall d :: d in dir ==> dir[d] in t.users
    requires
      || Trim(row.username) == ""
      || (row.restricted && (Trim(row.ownerId) == "" || Trim(row.ownerId) !in dir))
      || (row.restricted && exists a :: a in t.accounts && EqualFold(Trim(t.accounts[a].username), Trim(row.username))
                                        && !(t.accounts[a].restricted && t.accounts[a].owner == Some(dir[Trim(row.ownerId)])))
    ensures ImportAccount(t, dir, row) == t
  {
    hide Valid, FindAccount, Trim, EqualFold, ShareLocalAccount, ReplaceAliases, ReplaceTags, ReplaceCharacters,
         Lookup, Changes, Recipients, Sharable;
    var name, ownerId := Trim(row.username), Trim(row.ownerId);
    if name != "" && row.restricted && ownerId in dir && ownerId != "" {
      var a :| a in t.accounts && EqualFold(Trim(t.accounts[a].username), name)
               && !(t.accounts[a].restricted && t.accounts[a].owner == Some(dir[ownerId]));
      TrimTrims(row.username);
      TrimOfTrimmed(name);
      FoundAccount(t, name, a);
      ShareRefused(t, dir[ownerId], name, row, Lookup(dir, row.sharedIds));
    }
  }

  lemma ShareRefused(t: Tables, owner: nat, name: string, row: AccountRow, users: seq<int>)
    requires Valid(t) && owner in t.users && Trim(name) == name && !CanShare(t, owner, name, row.password)
    ensures var (t', result) := ShareLocalAccount(t, owner, name, row.password, row.aliases, users, row.roles, []);
      t' == t && result.Err?
  {
    hide Valid, ShareLocalAccount, CanShare, Trim, Recipients, Sharable, RowOf, OneRow;
    RefusedShareStep(t, owner, name, row.password, row.aliases, users, row.roles, []);
    ShareSucceeds(t, owner, name, row.password, row.aliases, users, row.roles, []);
  }

  /** A user row without a Discord id, and a group row without a name or with bad permissions for
      any group but the default, change nothing. */
  lemma OthersSkipped(t: Tables, grouped: Grouped, dir: map<string, nat>, user: UserRow, group: GroupRow)
    requires GroupsNumbered(grouped.tables.groups, grouped.tables.nextGroup) && WellNamed(grouped.tables.groups)
    ensures Trim(user.discordId) == "" ==> ImportUser(t, user) == t
    ensures Trim(group.name) == "" ==> ImportGroup(grouped, dir, group) == grouped
    ensures !IsDefaultGroupName(group.name) && (NormalizeWebRole(group.webRole).None? || NormalizeCommands(group.commands).None?) ==>
      ImportGroup(grouped, dir, group) == grouped
  {
    hide Trim, FindGroup, CreateGroup, UpdateGroupMeta, IsDefaultGroupName, NormalizeWebRole, NormalizeCommands,
         UpsertUser, SetUserRoles, SetUserAccessRevoked, ReplaceGroupMembership, ReplaceGroupAccountLinks, Lookup, LookupAccounts;
    var name, t0 := Trim(group.name), grouped.tables;
    SameTrimmedName(group.name);
    SameTrimmedName(name);
    GroupCreated(t0, name, group.description, group.webRole, group.commands);
    FindGroupIs(t0, name);
    if FindGroup(t0, name).Some? {
      var g := FindGroup(t0, name).value;
      SameNameIsDefault(t0.groups[g].name, group.name);
      GroupUpdated(t0, g, name, group.description, group.webRole, group.commands);
    }
  }

  lemma SameNameIsDefault(stored: string, name: string)
    requires IsTrimmed(stored) && Lower(stored) == Lower(Trim(Trim(name)))
    ensures IsDefaultGroupName(stored) <==> IsDefaultGroupName(name)
  {
    TrimTrims(name);
    TrimOfTrimmed(Trim(name));
    TrimOfTrimmed(stored);
  }

  // ----- Names up to the first conflict -----

  /** A blank alias, or one that is the username, is passed over. */
  predicate PassedOver(text: string, username: Option<string>) {
    username.Some? && (Trim(text) == "" || EqualFold(Trim(text), username.value))
  }

  /** A name cannot be added: it is blank, or another account has it. */
  predicate Conflict(names: map<string, Named>, text: string, a: nat, username: Option<string>) {
    var key := Lower(Trim(text));
    && !PassedOver(text, username)
    && (Trim(text) == "" || (key in names && names[key].account != a))
  }

  /** Text i of the list is reached and added, or was there. */
  ghost predicate Placed(names: map<string, Named>, texts: seq<string>, a: nat, username: Option<string>, i: nat)
    requires i < |texts|
  {
    !PassedOver(texts[i], username) && forall j :: 0 <= j <= i ==> !Conflict(names, texts[j], a, username)
  }

  ghost predicate PlacedKey(names: map<string, Named>, texts: seq<string>, a: nat, username: Option<string>, key: string) {
    exists i: nat :: i < |texts| && Placed(names, texts, a, username, i) && key == Lower(Trim(texts[i]))
  }

  lemma PlacedLast(names: map<string, Named>, texts: seq<string>, a: nat, username: Option<string>, key: string)
    requires texts != []
    ensures var last := |texts| - 1;
      PlacedKey(names, texts, a, username, key) <==>
        || PlacedKey(names, texts[..last], a, username, key)
        || (Placed(names, texts, a, username, last) && key == Lower(Trim(texts[last])))
  {
    hide PassedOver, Conflict, Trim, Lower;
    var last := |texts| - 1;
    forall i: nat | i < last
      ensures Placed(names, texts, a, username, i) <==> Placed(names, texts[..last], a, username, i)
    {
      assert forall j :: 0 <= j <= i ==> texts[..last][j] == texts[j];
    }
  }

  /** What adding a list of names to an account leaves: all before the first conflict, and what
      was there. It is complete exactly when there is no conflict. */
  ghost predicate AddedUpToConflict(names: map<string, Named>, names': map<string, Named>, ok: bool, texts: seq<string>, a: nat,
                                    username: Option<string>) {
    && (ok <==> forall i :: 0 <= i < |texts| ==> !Conflict(names, texts[i], a, username))
    && (forall key :: key in names' <==> key in names || PlacedKey(names, texts, a, username, key))
    && (forall key :: key in names ==> names'[key] == names[key])
    && (forall key :: key in names' && key !in names ==> names'[key].account == a && Lower(names'[key].text) == key)
  }

  lemma LastPlaced(names: map<string, Named>, texts: seq<string>, a: nat, username: Option<string>)
    requires texts != []
    ensures var last := |texts| - 1;
      var before := forall i :: 0 <= i < last ==> !Conflict(names, texts[..last][i], a, username);
      && (Placed(names, texts, a, username, last) <==>
            before && !PassedOver(texts[last], username) && !Conflict(names, texts[last], a, username))
      && ((forall i :: 0 <= i < |texts| ==> !Conflict(names, texts[i], a, username)) <==>
            before && !Conflict(names, texts[last], a, username))
  {
    hide PassedOver, Conflict, Trim;
    var last := |texts| - 1;
    assert forall i :: 0 <= i < last ==> texts[..last][i] == texts[i];
  }

  lemma NothingPlaced(names: map<string, Named>, a: nat, username: Option<string>)
    ensures AddedUpToConflict(names, names, true, [], a, username)
  {
  }

  lemma AddLast(names: map<string, Named>, before: map<string, Named>, ok: bool, texts: seq<string>, a: nat, username: Option<string>)
    requires texts != [] && AddedUpToConflict(names, before, ok, texts[..|texts| - 1], a, username)
    ensures var text := Trim(texts[|texts| - 1]);
      var (names', ok') :=
        if !ok || PassedOver(texts[|texts| - 1], username) then (before, ok) else AddName(before, text, a, true);
      AddedUpToConflict(names, names', ok', texts, a, username)
  {
    hide Trim, Lower, EqualFold, PlacedKey, Placed, PassedOver;
    var last := |texts| - 1;
    TrimTrims(texts[last]);
    TrimOfTrimmed(Trim(texts[last]));
    LastPlaced(names, texts, a, username);
    forall key: string
      ensures PlacedKey(names, texts, a, username, key) <==>
        || PlacedKey(names, texts[..last], a, username, key)
        || (Placed(names, texts, a, username, last) && key == Lower(Trim(texts[last])))
    {
      PlacedLast(names, texts, a, username, key);
    }
  }

  lemma {:induction false} AddNamesAre(names: map<string, Named>, texts: seq<string>, a: nat, username: Option<string>)
    ensures var (names', ok) := AddNames(names, texts, a, true, username);
      AddedUpToConflict(names, names', ok, texts, a, username)
    decreases |texts|
  {
    hide Trim, AddedUpToConflict, AddName;
    if texts == [] {
      NothingPlaced(names, a, username);
    } else {
      var last := |texts| - 1;
      AddNamesAre(names, texts[..last], a, username);
      var (before, ok) := AddNames(names, texts[..last], a, true, username);
      AddLast(names, before, ok, texts, a, username);
    }
  }

  /** Tags are added up to the first blank one. */
  ghost predicate TagPlaced(texts: seq<string>, key: string) {
    exists i: nat :: i < |texts| && key == Lower(Trim(texts[i])) && forall j :: 0 <= j <= i ==> Trim(texts[j]) != ""
  }

  lemma TagPlacedLast(texts: seq<string>, key: string)
    requires texts != []
    ensures var last := |texts| - 1;
      TagPlaced(texts, key) <==>
        || TagPlaced(texts[..last], key)
        || (key == Lower(Trim(texts[last])) && forall j :: 0 <= j < |texts| ==> Trim(texts[j]) != "")
  {
    hide Trim, Lower;
    var last := |texts| - 1;
    assert forall j :: 0 <= j < last ==> texts[..last][j] == texts[j];
  }

  lemma {:induction false} AddTagsAre(tags: map<(string, nat), string>, texts: seq<string>, a: nat)
    ensures var (tags', ok) := AddTags(tags, texts, a, true);
      && (ok <==> forall i :: 0 <= i < |texts| ==> Trim(texts[i]) != "")
      && (forall key :: key in tags' <==> key in tags || (key.1 == a && TagPlaced(texts, key.0)))
      && (forall key :: key in tags ==> tags'[key] == tags[key])
    decreases |texts|
  {
    hide Trim, Lower, TagPlaced;
    if texts == [] {
      assert forall key :: !TagPlaced(texts, key) by { NoTagPlaced(); }
    } else {
      var last := |texts| - 1;
      AddTagsAre(tags, texts[..last], a);
      forall key: string
        ensures TagPlaced(texts, key) <==>
          || TagPlaced(texts[..last], key)
          || (key == Lower(Trim(texts[last])) && forall j :: 0 <= j < |texts| ==> Trim(texts[j]) != "")
      {
        TagPlacedLast(texts, key);
      }
      assert forall j :: 0 <= j < last ==> texts[..last][j] == texts[j];
    }
  }

  lemma NoTagPlaced()
    ensures forall key :: !TagPlaced([], key)
  {
  }

  // ----- Space around keys -----

  /** Space around a Discord id, a username or a group name makes no difference. */
  lemma UserSpaceIgnored(t: Tables, row: UserRow)
    ensures ImportUser(t, row) == ImportUser(t, row.(discordId := Trim(row.discordId)))
  {
    hide Trim, UpsertUser, SetUserRoles, SetUserAccessRevoked;
    TrimTwice(row.discordId);
  }

  lemma AccountSpaceIgnored(t: Tables, dir: map<string, nat>, row: AccountRow)
    ensures ImportAccount(t, dir, row) == ImportAccount(t, dir, row.(username := Trim(row.username), ownerId := Trim(row.ownerId)))
  {
    hide Trim, AddEQAccount, SetEQPassword, ShareLocalAccount, FindAccount, SetEQDisabled, SetAccountAccess,
         ReplaceAliases, ReplaceTags, ReplaceCharacters, Lookup;
    TrimTwice(row.username);
    TrimTwice(row.ownerId);
  }

  lemma GroupSpaceIgnored(t: Grouped, dir: map<string, nat>, row: GroupRow)
    ensures ImportGroup(t, dir, row) == ImportGroup(t, dir, row.(name := Trim(row.name)))
  {
    hide Trim, FindGroup, CreateGroup, UpdateGroupMeta, ReplaceGroupMembership, ReplaceGroupAccountLinks, Lookup, LookupAccounts, Lower;
    TrimTwice(row.name);
  }

  lemma TrimTwice(s: string)
    ensures Trim(Trim(s)) == Trim(s)
  {
    TrimTrims(s);
    TrimOfTrimmed(Trim(s));
  }

  /** Rows name users by their Discord ids; a user without one cannot be named. */
  lemma DirectoryMeans(t: Tables, d: string)
    ensures d in Directory(t) <==> d != "" && d in t.userIds
    ensures d in Directory(t) ==> Directory(t)[d] == t.userIds[d]
  {
  }

  /** The users, accounts and groups a row names are those its lists name, whatever space is
      around, without the unknown ones. */
  lemma {:induction false} LookupMeans(dir: map<string, nat>, ids: seq<string>)
    ensures forall u :: u in Lookup(dir, ids) <==> exists d :: d in ids && Trim(d) in dir && dir[Trim(d)] == u
  {
    hide Trim;
    if ids != [] {
      var last := |ids| - 1;
      LookupMeans(dir, ids[..last]);
      assert ids == ids[..last] + [ids[last]];
      assert forall d :: d in ids <==> d in ids[..last] || d == ids[last];
    }
  }

  lemma {:induction false} LookupGroupsMeans(ids: map<string, nat>, names: seq<string>)
    ensures forall g :: g in LookupGroups(ids, names) <==> exists n :: n in names && Lower(Trim(n)) in ids && ids[Lower(Trim(n))] == g
  {
    hide Trim, Lower;
    if names != [] {
      var last := |names| - 1;
      LookupGroupsMeans(ids, names[..last]);
      assert names == names[..last] + [names[last]];
      assert forall n :: n in names <==> n in names[..last] || n == names[last];
    }
  }

  lemma {:induction false} LookupAccountsMeans(t: Tables, usernames: seq<string>)
    ensures forall a :: a in LookupAccounts(t, usernames) <==> exists n :: n in usernames && FindAccount(t, n) == Some(a)
  {
    hide FindAccount;
    if usernames != [] {
      var last := |usernames| - 1;
      LookupAccountsMeans(t, usernames[..last]);
      assert usernames == usernames[..last] + [usernames[last]];
      assert forall n :: n in usernames <==> n in usernames[..last] || n == usernames[last];
    }
  }
}
