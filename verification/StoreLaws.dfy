// What single store methods do to the rows they touch, and that they touch no others: users,
// permissions, group names, and the names of accounts.
module StoreLaws {
  import opened Access
  import opened AccessGrants
  import opened DefaultGroup
  import opened Memberships
  import opened Roles
  import opened StoreOps
  import opened Tables
  import opened Text
  import opened Wrappers

  // ----- Users -----

  /** The row of one user is as a login leaves it, and all others are as before. */
  ghost predicate UpsertLeaves(t: Tables, t': Tables, u: nat, discordId: string, displayName: string, roles: seq<string>) {
    var known := discordId in t.userIds;
    && t' == t.(users := t'.users, userIds := t'.userIds, nextUser := t'.nextUser)
    && t'.userIds == t.userIds[discordId := u] && u in t'.users
    && (if known then u in t.users && u == t.userIds[discordId] else u !in t.users)
    && t'.users == t.users[u := t'.users[u]]
    && t'.users[u].discordId == discordId && t'.users[u].displayName == displayName
    && t'.users[u].roles == (if known && roles == [] then t.users[u].roles else roles)
    && t'.users[u].revoked == (known && t.users[u].revoked)
  }

  /** A login stores the name and the roles it brings, except that an empty list of roles keeps
      the stored ones; the id and a revocation stay, and so do all other users. */
  lemma UpsertKeeps(t: Tables, discordId: string, displayName: string, roles: seq<string>)
    requires UsersIndexed(t.users, t.userIds, t.nextUser)
    ensures var (t', u) := UpsertUser(t, discordId, displayName, roles);
      UpsertLeaves(t, t', u, discordId, displayName, roles)
  {
    if discordId in t.userIds {
      assert t.userIds[discordId := t.userIds[discordId]] == t.userIds;
    } else {
      assert t.nextUser !in t.users;
    }
  }

  /** After setting a user's roles he holds exactly those, trimmed, and everybody else what they
      held before. */
  lemma RolesSet(t: Tables, user: nat, roles: seq<string>, u: nat, role: string)
    requires user in t.users
    ensures HasRole(SetUserRoles(t, user, roles), u, role) <==>
      if u == user then role != "" && exists r :: r in roles && role == Trim(r) else HasRole(t, u, role)
    ensures var t' := SetUserRoles(t, user, roles);
      t' == t.(users := t'.users) && t'.users[user] == t.users[user].(roles := t'.users[user].roles)
  {
    hide CleanRoles;
    CleanRolesIsClean(roles);
  }

  // ----- Permissions -----

  /** Which words name each web role, in any case and with any space around; no others do. */
  lemma WebRoles(role: string)
    ensures var word, r := Lower(Trim(role)), NormalizeWebRole(role);
      && (r == Some("admin") <==> word == "admin")
      && (r == Some("readonly") <==> word == "readonly" || word == "read_only" || word == "read-only" || word == "viewer")
      && (r == Some("") <==> word == "" || word == "none" || word == "off" || word == "disabled")
      && (r.Some? ==> r.value == "admin" || r.value == "readonly" || r.value == "")
  {
    hide Lower, Trim;
  }

  predicate IsCommand(key: string) {
    key == "sso" || key == "whoami"
  }

  /** A list of commands is accepted exactly when each is blank or known, and then means the
      ones that are not blank. */
  lemma {:induction false} CommandsAre(commands: seq<string>)
    ensures var r := NormalizeCommands(commands);
      && (r.Some? <==> forall c :: c in commands ==> Lower(Trim(c)) == "" || IsCommand(Lower(Trim(c))))
      && (r.Some? ==> forall key :: key in r.value <==> key != "" && exists c :: c in commands && key == Lower(Trim(c)))
  {
    hide Lower, Trim;
    if commands != [] {
      var last := |commands| - 1;
      CommandsAre(commands[..last]);
      assert commands == commands[..last] + [commands[last]];
      assert forall c :: c in commands <==> c in commands[..last] || c == commands[last];
      assert commands[last] in commands;
    }
  }

  // ----- Groups -----

  lemma {:induction false} LowestFrom(groups: Groups, key: string, from: nat, upTo: nat)
    ensures GroupFrom(groups, key, from, upTo).Some? ==>
      forall g :: g in groups && from <= g < GroupFrom(groups, key, from, upTo).value ==> Lower(groups[g].name) != key
    decreases upTo - from
  {
    hide Lower;
    if from < upTo && !(from in groups && Lower(groups[from].name) == key) {
      LowestFrom(groups, key, from + 1, upTo);
    }
  }

  /** The group found under a name is the first of that name, ignoring case. */
  lemma FoundGroup(t: Tables, name: string, g: nat)
    requires GroupsNumbered(t.groups, t.nextGroup)
    ensures FindGroup(t, name) == Some(g) <==>
      && Trim(name) != "" && g in t.groups && EqualFold(t.groups[g].name, Trim(name))
      && forall h :: h in t.groups && h < g ==> !EqualFold(t.groups[h].name, Trim(name))
  {
    hide Lower, Trim, GroupFrom;
    GroupFromIs(t.groups, Lower(Trim(name)), 1, t.nextGroup);
    LowestFrom(t.groups, Lower(Trim(name)), 1, t.nextGroup);
  }

  /** A group is created exactly when it has a name, no second Default comes of it, its
      permissions are normal, and no group has that very name. */
  lemma GroupCreated(t: Tables, name: string, description: string, webRole: string, commands: seq<string>)
    requires GroupsNumbered(t.groups, t.nextGroup) && WellNamed(t.groups)
    ensures var (t', id) := CreateGroup(t, name, description, webRole, commands);
      && (id.Some? <==>
            && Trim(name) != ""
            && !(IsDefaultGroupName(name) && exists g :: g in t.groups && IsDefaultGroupName(t.groups[g].name))
            && NormalizeWebRole(webRole).Some? && NormalizeCommands(commands).Some?
            && !exists g :: g in t.groups && t.groups[g].name == Trim(name))
      && (id.None? ==> t' == t)
      && (id.Some? ==>
            && id.value !in t.groups && t' == t.(groups := t'.groups, nextGroup := t'.nextGroup)
            && t'.groups == t.groups[id.value := Group(Trim(name), description, NormalizeWebRole(webRole).value,
                                                       NormalizeCommands(commands).value)])
  {
    hide Trim, FindGroup, NormalizeWebRole, NormalizeCommands, IsDefaultGroupName;
    SameTrimmedName(name);
    FindDefault(t);
    NumberedFrom(t);
    assert t.nextGroup !in t.groups;
  }

  lemma NumberedFrom(t: Tables)
    requires GroupsNumbered(t.groups, t.nextGroup)
    ensures t.nextGroup !in t.groups && 0 !in t.groups
  {
  }

  /** Updating the default group sets its description only; updating another sets all of it, and
      is refused for a missing group, a blank, reserved or taken name, or bad permissions. */
  lemma GroupUpdated(t: Tables, g: nat, name: string, description: string, webRole: string, commands: seq<string>)
    requires g in t.groups
    ensures var (t', ok) := UpdateGroupMeta(t, g, name, description, webRole, commands);
      var taken := exists h :: h in t.groups && h != g && t.groups[h].name == Trim(name);
      && (!ok ==> t' == t)
      && (!IsDefaultGroupName(t.groups[g].name) ==>
            && (ok <==> && Trim(name) != "" && !IsDefaultGroupName(name) && !taken
                        && NormalizeWebRole(webRole).Some? && NormalizeCommands(commands).Some?)
            && (ok ==> t' == t.(groups := t.groups[g := Group(Trim(name), Trim(description), NormalizeWebRole(webRole).value,
                                                              NormalizeCommands(commands).value)])))
      && (IsDefaultGroupName(t.groups[g].name) && ok ==>
            t' == t.(groups := t.groups[g := Group(DEFAULT_GROUP_NAME, Trim(description), "", KNOWN_COMMANDS)]))
  {
    SameTrimmedName(name);
    DefaultPermissions();
    hide Trim, NormalizeWebRole, NormalizeCommands, IsDefaultGroupName;
  }

  /** Repairing the default group keeps a description that is not all spaces, and replaces any
      other by the standard one. */
  lemma SyncedDescription(t: Tables, d: nat)
    requires WellNamed(t.groups) && d in t.groups && IsDefaultGroupName(t.groups[d].name)
    ensures var stored := t.groups[d].description;
      var kept := exists i :: 0 <= i < |stored| && stored[i] != ' ';
      SyncDefaultGroup(t, d)
      == Some(t.(groups := t.groups[d := Group(DEFAULT_GROUP_NAME, if kept then stored else DefaultGroupDescription(), "",
                                               KNOWN_COMMANDS)]))
  {
    hide IsDefaultGroupName, DefaultGroupDescription, NameTaken, WellNamed;
    NoOtherDefault(t, d);
  }

  lemma NoOtherDefault(t: Tables, d: nat)
    requires WellNamed(t.groups) && d in t.groups && IsDefaultGroupName(t.groups[d].name)
    ensures !NameTaken(t, DEFAULT_GROUP_NAME, d)
  {
    hide Trim, IsDefaultGroupName, IsTrimmed;
    DefaultIsTrimmed();
  }

  /** A group goes with its members and links, unless it is the default or not there; all other
      groups, members and links stay. */
  lemma GroupDeleted(t: Tables, g: nat)
    requires Valid(t)
    ensures var (t', ok) := DeleteGroup(t, g);
      && (ok <==> g in t.groups && !IsDefaultGroupName(t.groups[g].name))
      && (!ok ==> t' == t)
      && (ok ==>
            && g !in t'.groups && (forall h :: h in t.groups && h != g ==> h in t'.groups && t'.groups[h] == t.groups[h])
            && (forall h: nat, u: nat :: (h, u) in t'.memberUsers <==> (h, u) in t.memberUsers && h != g)
            && (forall h: nat, role: string :: (h, role) in t'.memberRoles <==> (h, role) in t.memberRoles && h != g)
            && (forall a: nat, h: nat :: (a, h) in t'.links <==> (a, h) in t.links && h != g)
            && t' == t.(groups := t'.groups, memberUsers := t'.memberUsers, memberRoles := t'.memberRoles, links := t'.links))
  {
    hide Valid, IsDefaultGroupName;
  }

  /** Replacing a group's accounts is done or refused as a whole, and no other group's change. */
  lemma LinksExactness(t: Tables, g: nat, accounts: seq<int>)
    ensures var (t', ok) := ReplaceGroupAccountLinks(t, g, accounts);
      && (ok <==> || (forall a :: a in accounts ==> a <= 0)
                  || (g in t.groups && forall a: nat :: a in accounts && a > 0 ==> a in t.accounts))
      && (!ok ==> t' == t) && t' == t.(links := t'.links)
      && (ok ==> forall a: nat, h: nat :: (a, h) in t'.links <==> if h == g then a in accounts && a > 0 else (a, h) in t.links)
  {
    hide CleanIds, PutFor, Elems;
    ListedIds(accounts);
    NoneListed(CleanIds(accounts));
    var ids := Elems(CleanIds(accounts));
    forall a: nat, h: nat {
      InPutFor(t.links, g, ids, a, h);
    }
  }

  // ----- Accounts and their names -----

  /** An account is found under a name exactly when that is its username, ignoring case and
      space around it. */
  lemma FoundAccount(t: Tables, name: string, a: nat)
    requires Valid(t)
    ensures FindAccount(t, name) == Some(a) <==>
      Trim(name) != "" && a in t.accounts && EqualFold(Trim(t.accounts[a].username), Trim(name))
  {
    hide Trim, Lower, UsersIndexed, OwnersIn, GroupsNumbered, NamesFiled, NamesRefer, TagsFiled, TagsRefer, KeysIn, ValuesIn;
    assert |Lower(Trim(name))| == |Trim(name)|;
  }

  lemma NamesDropped(names: map<string, Named>, a: nat, b: nat)
    ensures NamesOf(NamesNotOf(names, a), b) == if b == a then {} else NamesOf(names, b)
  {
    var left := NamesNotOf(names, a);
    forall x: string
      ensures x in NamesOf(left, b) <==> b != a && x in NamesOf(names, b)
    {
      if b != a && x in NamesOf(names, b) {
        var k :| k in names && names[k].account == b && names[k].text == x;
        assert k in left && left[k] == names[k];
      }
    }
    assert b == a ==> NamesOf(left, b) == {};
  }

  lemma TagsDropped(tags: map<(string, nat), string>, a: nat, b: nat)
    ensures TagsOf(TagsNotOf(tags, a), b) == if b == a then {} else TagsOf(tags, b)
  {
    var left := TagsNotOf(tags, a);
    forall x: string
      ensures x in TagsOf(left, b) <==> b != a && x in TagsOf(tags, b)
    {
      if b != a && x in TagsOf(tags, b) {
        var k :| k in tags && k.1 == b && tags[k] == x;
        assert k in left && left[k] == tags[k];
      }
    }
    assert b == a ==> TagsOf(left, b) == {};
  }

  lemma RowDropped(t: Tables, a: nat, b: nat)
    requires a in t.accounts
    ensures RowOf(DeleteEQAccount(t, a).0, b) == if b == a then Row(None, {}, {}, {}, {}, {}, {}, {}) else RowOf(t, b)
  {
    hide Of, Put, NamesOf, TagsOf, NamesNotOf, TagsNotOf, AccountKey;
    OfPut(t.accessRoles, a, {}, b);
    OfPut(t.accessUsers, a, {}, b);
    OfPut(t.shares, a, {}, b);
    OfPut(t.links, a, {}, b);
    NamesDropped(t.aliases, a, b);
    NamesDropped(t.characters, a, b);
    TagsDropped(t.tags, a, b);
  }

  /** Deleting an account takes all of its row and nothing else. */
  lemma AccountDeleted(t: Tables, a: nat)
    requires a in t.accounts
    ensures var (t', ok) := DeleteEQAccount(t, a);
      && ok && WorldOf(t') == WorldOf(t)
      && RowOf(t', a) == Row(None, {}, {}, {}, {}, {}, {}, {})
      && forall b: nat :: b != a ==> RowOf(t', b) == RowOf(t, b)
  {
    hide RowOf, AccountKey;
    forall b: nat {
      RowDropped(t, a, b);
    }
  }

  /** A name is added exactly when it is not blank, no other account has it in any case, and the
      account exists or has it already. */
  lemma NameAdded(names: map<string, Named>, text: string, a: nat, known: bool)
    requires NamesFiled(names)
    ensures var (names', ok) := AddName(names, text, a, known);
      var own := exists x :: x in NamesOf(names, a) && EqualFold(x, Trim(text));
      && (ok <==> && Trim(text) != "" && (known || own)
                  && forall k :: k in names && EqualFold(names[k].text, Trim(text)) ==> names[k].account == a)
      && (!ok || own ==> names' == names)
      && (ok && !own ==> names' == names[Lower(Trim(text)) := Named(Trim(text), a)])
  {
    hide Lower, Trim, EqualFold, NamesOf, NamesFiled;
    HasName(names, Trim(text), a);
  }

  /** Removing a name an account was given, in any case, takes back just that. */
  lemma NameRemoved(names: map<string, Named>, text: string, again: string, a: nat, b: nat)
    requires AddName(names, text, a, true).1 && Lower(Trim(text)) !in names
    requires EqualFold(Trim(text), Trim(again))
    ensures var names' := AddName(names, text, a, true).0;
      RemoveName(names', again, b) == if b == a then (names, true) else (names', false)
  {
    hide Trim;
    var key := Lower(Trim(text));
    var names' := AddName(names, text, a, true).0;
    assert |key| == |Trim(text)|;
    assert names' - {key} == names;
  }

  /** A tag is shared by accounts: it is added to each once in any case. */
  lemma TagAdded(tags: map<(string, nat), string>, text: string, a: nat, known: bool)
    requires TagsFiled(tags)
    ensures var (tags', ok) := AddTagTo(tags, text, a, known);
      var own := exists x :: x in TagsOf(tags, a) && EqualFold(x, Trim(text));
      && (ok <==> Trim(text) != "" && (known || own))
      && (!ok || own ==> tags' == tags)
      && (ok && !own ==> tags' == tags[(Lower(Trim(text)), a) := Trim(text)])
  {
    hide Lower, Trim, EqualFold, TagsOf, TagsFiled;
    HasTag(tags, Trim(text), a);
  }

  lemma TagRemoved(tags: map<(string, nat), string>, text: string, again: string, a: nat)
    requires AddTagTo(tags, text, a, true).1 && (Lower(Trim(text)), a) !in tags
    requires EqualFold(Trim(text), Trim(again))
    ensures RemoveTagFrom(AddTagTo(tags, text, a, true).0, again, a) == (tags, true)
  {
    hide Trim;
    var key := (Lower(Trim(text)), a);
    assert |key.0| == |Trim(text)|;
    assert AddTagTo(tags, text, a, true).0 - {key} == tags;
  }

  // ----- The aliases of a share -----

  /** The key is that of a listed alias other than the username. */
  ghost predicate Aliased(aliases: seq<string>, username: string, key: string) {
    exists al :: al in aliases && Trim(al) != "" && !EqualFold(Trim(al), username) && key == Lower(Trim(al))
  }

  /** Sharing adds every listed alias that is free, whatever becomes of the others, and moves
      none from another account. */
  lemma {:induction false} AliasesAdded(t: Tables, username: string, aliases: seq<string>, a: nat, key: string)
    requires a in t.accounts
    ensures var after := AddAliases(t, username, aliases, a).aliases;
      && (key in after <==> key in t.aliases || Aliased(aliases, username, key))
      && (key in t.aliases ==> after[key] == t.aliases[key])
      && (key in after && key !in t.aliases ==> after[key].account == a && Lower(after[key].text) == key)
      && AddAliases(t, username, aliases, a).accounts == t.accounts
    decreases |aliases|
  {
    hide Trim, EqualFold, Lower;
    if aliases != [] {
      var last := |aliases| - 1;
      AliasesAdded(t, username, aliases[..last], a, key);
      assert aliases == aliases[..last] + [aliases[last]];
      assert forall al :: al in aliases <==> al in aliases[..last] || al == aliases[last];
      TrimTrims(aliases[last]);
      TrimOfTrimmed(Trim(aliases[last]));
    }
  }

  lemma ShareAliases(t: Tables, owner: nat, name: string, password: string, aliases: seq<string>,
                     users: seq<int>, roles: seq<string>, groups: seq<int>)
    requires Trim(name) == name && ShareLocalAccount(t, owner, name, password, aliases, users, roles, groups).1.Ok?
    ensures var (t', result) := ShareLocalAccount(t, owner, name, password, aliases, users, roles, groups);
      var (t1, target) := ShareTarget(t, owner, name, password);
      && target == Ok(result.value.account)
      && t'.aliases == AddAliases(t1, name, aliases, result.value.account).aliases
  {
    hide CleanIds, CleanRoles, ShareTarget, AddAliases, SharesBefore, Recipients, NewRecipients,
         ReplaceAccountShares, ReplaceAccountRoles, ReplaceAccountGroups;
    var (t1, target) := ShareTarget(t, owner, name, password);
    var id := target.value;
    var t2 := AddAliases(t1, name, aliases, id);
    SharesAlone(t2, id, Recipients(owner, users));
    var t3 := ReplaceAccountShares(t2, id, Recipients(owner, users)).0;
    RolesAlone(t3, id, CleanRoles(roles));
    GroupsAlone(ReplaceAccountRoles(t3, id, CleanRoles(roles)).0, id, CleanIds(groups));
  }

  /** What a successful share does to the aliases of the store. */
  lemma ShareAddsAliases(t: Tables, owner: nat, username: string, password: string, aliases: seq<string>,
                         users: seq<int>, roles: seq<string>, groups: seq<int>, key: string)
    requires Valid(t) && owner in t.users && Trim(username) == username
    requires ShareLocalAccount(t, owner, username, password, aliases, users, roles, groups).1.Ok?
    ensures var (t', result) := ShareLocalAccount(t, owner, username, password, aliases, users, roles, groups);
      && (key in t'.aliases <==> key in t.aliases || Aliased(aliases, username, key))
      && (key in t.aliases ==> t'.aliases[key] == t.aliases[key])
      && (key in t'.aliases && key !in t.aliases ==> t'.aliases[key].account == result.value.account)
  {
    hide Valid, ShareLocalAccount, ShareTarget, AddAliases, Aliased, RowOf, SharedAccount, AccountKey;
    ShareAliases(t, owner, username, password, aliases, users, roles, groups);
    NamedShare(t, owner, username, password, aliases, users, roles, groups);
    ShareTargetStep(t, owner, username, password);
    var (t1, target) := ShareTarget(t, owner, username, password);
    AliasesAdded(t1, username, aliases, target.value, key);
  }

  lemma NamedShare(t: Tables, owner: nat, username: string, password: string, aliases: seq<string>,
                   users: seq<int>, roles: seq<string>, groups: seq<int>)
    requires ShareLocalAccount(t, owner, username, password, aliases, users, roles, groups).1.Ok?
    ensures Trim(username) != ""
  {
    hide Trim, ShareTarget, AddAliases, ReplaceAccountShares, ReplaceAccountRoles, ReplaceAccountGroups;
  }

  /** Space around the username of a share makes no difference. */
  lemma ShareSpaceIgnored(t: Tables, owner: nat, username: string, password: string, aliases: seq<string>,
                          users: seq<int>, roles: seq<string>, groups: seq<int>)
    ensures ShareLocalAccount(t, owner, username, password, aliases, users, roles, groups)
         == ShareLocalAccount(t, owner, Trim(username), password, aliases, users, roles, groups)
  {
    hide Trim, ShareTarget, AddAliases, ReplaceAccountShares, ReplaceAccountRoles, ReplaceAccountGroups, SharesBefore, Recipients;
    TrimTrims(username);
    TrimOfTrimmed(Trim(username));
  }
}
