// The store as the code has it: one field per table, changed statement by statement. Methods
// that are not transactional return an error with the rows written so far in place.
module Stores {
  import opened Roles
  import opened StoreLoops
  import opened Tables
  import opened Text
  import opened Wrappers
  import Ops = StoreOps

  class Store {
    var users: map<nat, User>
    var userIds: map<string, nat>
    var accounts: map<nat, Account>
    var accountIds: map<string, nat>
    var groups: map<nat, Group>
    var aliases: map<string, Named>
    var characters: map<string, Named>
    var tags: map<(string, nat), string>
    var accessRoles: set<(nat, string)>
    var accessUsers: set<(nat, nat)>
    var shares: set<(nat, nat)>
    var links: set<(nat, nat)>
    var memberUsers: set<(nat, nat)>
    var memberRoles: set<(nat, string)>
    var nextUser: nat
    var nextAccount: nat
    var nextGroup: nat

    constructor ()
      ensures Contents() == EMPTY
    {
      users, userIds, accounts, accountIds, groups := map[], map[], map[], map[], map[];
      aliases, characters, tags := map[], map[], map[];
      accessRoles, accessUsers, shares, links, memberUsers, memberRoles := {}, {}, {}, {}, {}, {};
      nextUser, nextAccount, nextGroup := 1, 1, 1;
    }

    function Contents(): Tables
      reads this
    {
      Tables(users, userIds, accounts, accountIds, groups, aliases, characters, tags, accessRoles, accessUsers, shares, links,
             memberUsers, memberRoles, nextUser, nextAccount, nextGroup)
    }

    // ----- Users -----

    method UpsertUser(discordId: string, displayName: string, roles: seq<string>) returns (id: nat)
      modifies `users, `userIds, `nextUser
      ensures (Contents(), id) == Ops.UpsertUser(old(Contents()), discordId, displayName, roles)
    {
      if discordId in userIds && userIds[discordId] in users {
        id := userIds[discordId];
        var u := users[id];
        users := users[id := u.(displayName := displayName, roles := if roles == [] then u.roles else roles)];
      } else {
        id := nextUser;
        nextUser := nextUser + 1;
        users := users[id := User(discordId, displayName, roles, false)];
        userIds := userIds[discordId := id];
      }
    }

    method SetUserRoles(user: nat, roles: seq<string>)
      modifies `users
      ensures Contents() == Ops.SetUserRoles(old(Contents()), user, roles)
    {
      var out := Cleaned(roles);
      if user in users {
        users := users[user := users[user].(roles := out)];
      }
    }

    method SetUserAccessRevoked(user: nat, revoked: bool) returns (ok: bool)
      modifies `users
      ensures (Contents(), ok) == Ops.SetUserAccessRevoked(old(Contents()), user, revoked)
    {
      if user !in users {
        return false;
      }
      users := users[user := users[user].(revoked := revoked)];
      ok := true;
    }

    // ----- Accounts -----

    method FindEQAccountIDByUsername(username: string) returns (id: Option<nat>)
      ensures id == Ops.FindAccount(Contents(), username)
    {
      var norm := Lower(Trim(username));
      if norm == "" || norm !in accountIds {
        return None;
      }
      id := Some(accountIds[norm]);
    }

    method AddEQAccount(username: string, password: string) returns (id: Option<nat>)
      modifies `accounts, `accountIds, `nextAccount
      ensures (Contents(), id) == Ops.AddEQAccount(old(Contents()), username, password)
    {
      var norm := Lower(Trim(username));
      if norm in accountIds {
        return None;
      }
      id := Some(nextAccount);
      accounts := accounts[nextAccount := Account(username, password, false, false, None)];
      accountIds := accountIds[norm := nextAccount];
      nextAccount := nextAccount + 1;
    }

    method SetEQPassword(account: nat, password: string)
      modifies `accounts
      ensures Contents() == Ops.SetEQPassword(old(Contents()), account, password)
    {
      if account in accounts {
        accounts := accounts[account := accounts[account].(password := password)];
      }
    }

    method SetEQDisabled(account: nat, disabled: bool)
      modifies `accounts
      ensures Contents() == Ops.SetEQDisabled(old(Contents()), account, disabled)
    {
      if account in accounts {
        accounts := accounts[account := accounts[account].(disabled := disabled)];
      }
    }

    /** The update in a share that makes its account the owner's restricted one. */
    method MakeRestricted(account: nat, owner: nat)
      modifies `accounts
      ensures Contents() == Ops.MakeRestricted(old(Contents()), account, owner)
    {
      if account in accounts {
        accounts := accounts[account := accounts[account].(restricted := true, owner := Some(owner))];
      }
    }

    // ----- Grants -----

    method ReplaceAccountRoles(account: nat, roles: seq<string>) returns (ok: bool)
      modifies `accessRoles
      ensures (Contents(), ok) == Ops.ReplaceAccountRoles(old(Contents()), account, roles)
    {
      hide CleanRoles, Put, Trim, Ops.Elems;
      PutNone(accessRoles, account);
      accessRoles := set p | p in accessRoles && p.0 != account;
      var seen: set<string> := {};
      EmptyElems<string>();
      NoRoles();
      for i := 0 to |roles|
        invariant seen == Ops.Elems(CleanRoles(roles[..i])) && forall r :: r in seen <==> r in CleanRoles(roles[..i])
        invariant account in accounts || CleanRoles(roles[..i]) == []
        invariant accessRoles == Put(old(accessRoles), account, seen)
        modifies `accessRoles
      {
        var role := Trim(roles[i]);
        CleanRolesStep(roles, i);
        if role == "" || role in seen {
          continue;
        }
        if account !in accounts {
          CleanRolesGrow(roles, i + 1);
          return false;
        }
        ElemsAppend(CleanRoles(roles[..i]), role);
        PutOne(old(accessRoles), account, seen, role);
        seen := seen + {role};
        accessRoles := accessRoles + {(account, role)};
      }
      assert roles[..|roles|] == roles;
      ok := true;
    }

    method ReplaceAccountUsers(account: nat, ids: seq<int>) returns (ok: bool)
      modifies `accessUsers
      ensures (Contents(), ok) == Ops.ReplaceAccountUsers(old(Contents()), account, ids)
    {
      hide Ops.CleanIds, Put, Ops.Elems, Ops.Accepted;
      PutNone(accessUsers, account);
      accessUsers := set p | p in accessUsers && p.0 != account;
      var seen: set<nat> := {};
      EmptyElems<nat>();
      NoneClean();
      for i := 0 to |ids|
        invariant seen == Ops.Elems(Ops.CleanIds(ids[..i])) && forall u: nat :: u in seen <==> u in Ops.CleanIds(ids[..i])
        invariant (account in accounts && seen <= users.Keys) || Ops.CleanIds(ids[..i]) == []
        invariant accessUsers == Put(old(accessUsers), account, seen)
        modifies `accessUsers
      {
        var uid := ids[i];
        CleanIdsStep(ids, i);
        if uid <= 0 || uid in seen {
          continue;
        }
        if account !in accounts || uid !in users {
          RefusedAt(ids, i, account in accounts, users.Keys);
          return false;
        }
        var id: nat := uid;
        ElemsAppend(Ops.CleanIds(ids[..i]), id);
        PutOne(old(accessUsers), account, seen, id);
        seen := seen + {id};
        accessUsers := accessUsers + {(account, id)};
      }
      assert ids[..|ids|] == ids;
      AllTaken(ids, account in accounts, users.Keys);
      ok := true;
    }

    method ReplaceAccountGroups(account: nat, ids: seq<int>) returns (ok: bool)
      modifies `links
      ensures (Contents(), ok) == Ops.ReplaceAccountGroups(old(Contents()), account, ids)
    {
      hide Ops.CleanIds, Put, Ops.Elems, Ops.Accepted;
      PutNone(links, account);
      links := set p | p in links && p.0 != account;
      var seen: set<nat> := {};
      EmptyElems<nat>();
      NoneClean();
      for i := 0 to |ids|
        invariant seen == Ops.Elems(Ops.CleanIds(ids[..i])) && forall g: nat :: g in seen <==> g in Ops.CleanIds(ids[..i])
        invariant (account in accounts && seen <= groups.Keys) || Ops.CleanIds(ids[..i]) == []
        invariant links == Put(old(links), account, seen)
        modifies `links
      {
        var gid := ids[i];
        CleanIdsStep(ids, i);
        if gid <= 0 || gid in seen {
          continue;
        }
        if account !in accounts || gid !in groups {
          RefusedAt(ids, i, account in accounts, groups.Keys);
          return false;
        }
        var id: nat := gid;
        ElemsAppend(Ops.CleanIds(ids[..i]), id);
        PutOne(old(links), account, seen, id);
        seen := seen + {id};
        links := links + {(account, id)};
      }
      assert ids[..|ids|] == ids;
      AllTaken(ids, account in accounts, groups.Keys);
      ok := true;
    }

    method SetAccountAccess(account: nat, roles: seq<string>, grantees: seq<int>, groupIds: seq<int>) returns (ok: bool)
      modifies `accessRoles, `accessUsers, `links
      ensures (Contents(), ok) == Ops.SetAccountAccess(old(Contents()), account, roles, grantees, groupIds)
    {
      hide Ops.ReplaceAccountRoles, Ops.ReplaceAccountUsers, Ops.ReplaceAccountGroups;
      ok := ReplaceAccountRoles(account, roles);
      if !ok {
        return;
      }
      ok := ReplaceAccountUsers(account, grantees);
      if !ok {
        return;
      }
      ok := ReplaceAccountGroups(account, groupIds);
    }

    /** The check each recipient gets. */
    method CanReceive(ghost known: set<nat>, user: int) returns (ok: bool)
      requires known == Ops.NotRevoked(users)
      ensures ok <==> user in known
    {
      ok := user in users && !users[user].revoked;
    }

    method ReplaceAccountShares(account: nat, ids: seq<int>) returns (ok: bool)
      modifies `shares
      ensures (Contents(), ok) == Ops.ReplaceAccountShares(old(Contents()), account, ids)
    {
      hide Ops.CleanIds, Put, Ops.Elems, Ops.Accepted, Ops.NotRevoked;
      ghost var known := Ops.NotRevoked(users);
      PutNone(shares, account);
      shares := set p | p in shares && p.0 != account;
      var seen: set<nat> := {};
      EmptyElems<nat>();
      NoneClean();
      for i := 0 to |ids|
        invariant seen == Ops.Elems(Ops.CleanIds(ids[..i])) && forall u: nat :: u in seen <==> u in Ops.CleanIds(ids[..i])
        invariant (account in accounts && seen <= known) || Ops.CleanIds(ids[..i]) == []
        invariant shares == Put(old(shares), account, seen)
        modifies `shares
      {
        var uid := ids[i];
        CleanIdsStep(ids, i);
        if uid <= 0 || uid in seen {
          continue;
        }
        var found := CanReceive(known, uid);
        if !found || account !in accounts {
          RefusedAt(ids, i, account in accounts, known);
          return false;
        }
        var id: nat := uid;
        ElemsAppend(Ops.CleanIds(ids[..i]), id);
        PutOne(old(shares), account, seen, id);
        seen := seen + {id};
        shares := shares + {(account, id)};
      }
      assert ids[..|ids|] == ids;
      AllTaken(ids, account in accounts, known);
      ok := true;
    }

    // ----- Names -----

    method AddAlias(alias: string, account: nat) returns (ok: bool)
      modifies `aliases
      ensures (Contents(), ok) == Ops.AddAlias(old(Contents()), alias, account)
    {
      hide Trim, Lower;
      var text := Trim(alias);
      if text == "" {
        return false;
      }
      if Lower(text) in aliases {
        return aliases[Lower(text)].account == account;
      }
      if account !in accounts {
        return false;
      }
      aliases := aliases[Lower(text) := Named(text, account)];
      ok := true;
    }

    method RemoveAlias(alias: string, account: nat) returns (ok: bool)
      modifies `aliases
      ensures (Contents(), ok) == Ops.RemoveAlias(old(Contents()), alias, account)
    {
      hide Trim;
      var text := Trim(alias);
      if text == "" {
        return false;
      }
      if !(Lower(text) in aliases && aliases[Lower(text)].account == account) {
        return false;
      }
      aliases := aliases - {Lower(text)};
      ok := true;
    }

    method AddTag(tag: string, account: nat) returns (ok: bool)
      modifies `tags
      ensures (Contents(), ok) == Ops.AddTag(old(Contents()), tag, account)
    {
      hide Trim, Lower;
      var text := Trim(tag);
      if text == "" {
        return false;
      }
      if (Lower(text), account) in tags {
        return true;
      }
      if account !in accounts {
        return false;
      }
      tags := tags[(Lower(text), account) := text];
      ok := true;
    }

    method RemoveTag(tag: string, account: nat) returns (ok: bool)
      modifies `tags
      ensures (Contents(), ok) == Ops.RemoveTag(old(Contents()), tag, account)
    {
      hide Trim;
      var text := Trim(tag);
      if text == "" {
        return false;
      }
      if (Lower(text), account) !in tags {
        return false;
      }
      tags := tags - {(Lower(text), account)};
      ok := true;
    }

    method AddCharacter(name: string, account: nat) returns (ok: bool)
      modifies `characters
      ensures (Contents(), ok) == Ops.AddCharacter(old(Contents()), name, account)
    {
      hide Trim, Lower;
      var text := Trim(name);
      if text == "" {
        return false;
      }
      if Lower(text) in characters {
        return characters[Lower(text)].account == account;
      }
      if account !in accounts {
        return false;
      }
      characters := characters[Lower(text) := Named(text, account)];
      ok := true;
    }

    method RemoveCharacter(name: string, account: nat) returns (ok: bool)
      modifies `characters
      ensures (Contents(), ok) == Ops.RemoveCharacter(old(Contents()), name, account)
    {
      hide Trim;
      var text := Trim(name);
      if text == "" {
        return false;
      }
      if !(Lower(text) in characters && characters[Lower(text)].account == account) {
        return false;
      }
      characters := characters - {Lower(text)};
      ok := true;
    }

    // ----- Sharing -----

    /** The account a share writes to. */
    method ShareTarget(owner: nat, username: string, password: string) returns (r: Result<nat, Ops.ShareError>)
      modifies `accounts, `accountIds, `nextAccount, `accessUsers
      ensures (Contents(), r) == Ops.ShareTarget(old(Contents()), owner, username, password)
    {
      hide Ops.SetEQPassword, Ops.MakeRestricted, Ops.ReplaceAccountUsers, Ops.AddEQAccount, Ops.FindAccount, Trim;
      var found := FindEQAccountIDByUsername(username);
      if found.Some? {
        var id := found.value;
        if id !in accounts || !accounts[id].restricted || accounts[id].owner != Some(owner) {
          return Err(Ops.AccountExists);
        }
        if Trim(password) != "" {
          SetEQPassword(id, password);
        }
        MakeRestricted(id, owner);
        var _ := ReplaceAccountUsers(id, []);
        return Ok(id);
      }
      if Trim(password) == "" {
        return Err(Ops.PasswordRequired);
      }
      var added := AddEQAccount(username, password);
      if added.None? {
        return Err(Ops.Refused);
      }
      MakeRestricted(added.value, owner);
      r := Ok(added.value);
    }

    method ShareLocalAccount(owner: nat, username0: string, password: string, names: seq<string>, shareUsers: seq<int>,
                             shareRoles: seq<string>, shareGroups: seq<int>) returns (r: Result<Ops.Shared, Ops.ShareError>)
      modifies `accounts, `accountIds, `nextAccount, `accessUsers, `aliases, `shares, `accessRoles, `links
      ensures (Contents(), r)
           == Ops.ShareLocalAccount(old(Contents()), owner, username0, password, names, shareUsers, shareRoles, shareGroups)
    {
      hide Ops.ShareTarget, Ops.AddAliases, Ops.ReplaceAccountShares, Ops.ReplaceAccountRoles, Ops.ReplaceAccountGroups, Ops.SharesBefore,
           Ops.Recipients, Ops.CleanIds, CleanRoles, Ops.NewRecipients, Trim, EqualFold, Ops.AddAlias, Ops.FindAccount, Of;
      var username := Trim(username0);
      if username == "" {
        return Err(Ops.UsernameRequired);
      }
      var cleanShares := CleanRecipients(owner, shareUsers);
      var cleanRoles := Cleaned(shareRoles);
      var cleanGroups := CleanedIds(shareGroups);
      var previous := SharesBefore(username);
      var target := ShareTarget(owner, username, password);
      if target.Err? {
        return Err(target.error);
      }
      var id := target.value;
      AddShareAliases(username, names, id);
      var ok := ReplaceAccountShares(id, cleanShares);
      if !ok {
        return Err(Ops.BadRecipient);
      }
      ok := ReplaceAccountRoles(id, cleanRoles);
      if !ok {
        return Err(Ops.Refused);
      }
      ok := ReplaceAccountGroups(id, cleanGroups);
      if !ok {
        return Err(Ops.BadGroup);
      }
      var notified := DiffNewShareRecipients(previous, cleanShares);
      r := Ok(Ops.Shared(id, notified));
    }

    method SharesBefore(username: string) returns (previous: set<nat>)
      ensures previous == Ops.SharesBefore(Contents(), username)
    {
      var found := FindEQAccountIDByUsername(username);
      previous := {};
      if found.Some? {
        previous := set p | p in shares && p.0 == found.value :: p.1;
      }
    }

    /** The alias loop of a share: conflicts are ignored. */
    method AddShareAliases(username: string, names: seq<string>, id: nat)
      modifies `aliases
      ensures Contents() == Ops.AddAliases(old(Contents()), username, names, id)
    {
      hide Trim, EqualFold, Ops.AddAlias, Ops.AddAliases;
      NoAliases(Contents(), username, id);
      for i := 0 to |names|
        invariant Contents() == Ops.AddAliases(old(Contents()), username, names[..i], id)
        modifies `aliases
      {
        AddAliasesStepTo(old(Contents()), username, names, id, i);
        var al := Trim(names[i]);
        if al == "" || EqualFold(al, username) {
          continue;
        }
        var _ := AddAlias(al, id);
      }
      assert names[..|names|] == names;
    }

    // ----- Groups -----

    method FindGroupIDByName(name0: string) returns (id: Option<nat>)
      ensures id == Ops.FindGroup(Contents(), name0)
    {
      hide Trim, Lower;
      var name := Trim(name0);
      if name == "" {
        return None;
      }
      var g := 1;
      while g < nextGroup
        invariant Ops.GroupFrom(groups, Lower(name), 1, nextGroup) == Ops.GroupFrom(groups, Lower(name), g, nextGroup)
      {
        if g in groups && Lower(groups[g].name) == Lower(name) {
          return Some(g);
        }
        GroupFromStep(groups, Lower(name), g, nextGroup);
        g := g + 1;
      }
      id := None;
    }

    /** The unique index on group names. */
    method NameTaken(name: string, but: nat) returns (taken: bool)
      ensures taken == Ops.NameTaken(Contents(), name, but)
    {
      taken := exists g :: g in groups && g != but && groups[g].name == name;
    }

    method CreateGroup(name0: string, description: string, webRole0: string, commands0: seq<string>) returns (id: Option<nat>)
      modifies `groups, `nextGroup
      ensures (Contents(), id) == Ops.CreateGroup(old(Contents()), name0, description, webRole0, commands0)
    {
      hide Trim, Ops.FindGroup, Ops.IsDefaultGroupName, Ops.NormalizeWebRole, Ops.NormalizeCommands, Ops.NameTaken;
      var name := Trim(name0);
      if name == "" {
        return None;
      }
      if Ops.IsDefaultGroupName(name) {
        var found := FindGroupIDByName(Ops.DEFAULT_GROUP_NAME);
        if found.Some? {
          return None;
        }
      }
      var webRole := Ops.NormalizeWebRole(webRole0);
      if webRole.None? {
        return None;
      }
      var commands := NormalizeDiscordCommands(commands0);
      if commands.None? {
        return None;
      }
      var taken := NameTaken(name, 0);
      if taken {
        return None;
      }
      id := Some(nextGroup);
      groups := groups[nextGroup := Group(name, description, webRole.value, commands.value)];
      nextGroup := nextGroup + 1;
    }

    method UpdateGroupMeta(g: nat, name0: string, description: string, webRole0: string, commands0: seq<string>) returns (ok: bool)
      modifies `groups
      ensures (Contents(), ok) == Ops.UpdateGroupMeta(old(Contents()), g, name0, description, webRole0, commands0)
    {
      hide Trim, Ops.IsDefaultGroupName, Ops.NormalizeWebRole, Ops.NormalizeCommands, Ops.NameTaken;
      var isDefault := g in groups && Ops.IsDefaultGroupName(groups[g].name);
      var name, webRole, commands := name0, webRole0, commands0;
      if isDefault {
        name, webRole, commands := Ops.DEFAULT_GROUP_NAME, "", ["sso", "whoami"];
      } else {
        name := Trim(name);
        if name == "" {
          return false;
        }
        if Ops.IsDefaultGroupName(name) {
          return false;
        }
      }
      var role := Ops.NormalizeWebRole(webRole);
      if role.None? {
        return false;
      }
      var cmds := NormalizeDiscordCommands(commands);
      if cmds.None? {
        return false;
      }
      var taken := NameTaken(name, g);
      if g !in groups || taken {
        return false;
      }
      groups := groups[g := Group(name, Trim(description), role.value, cmds.value)];
      ok := true;
    }

    method DeleteGroup(g: nat) returns (ok: bool)
      modifies `groups, `memberUsers, `memberRoles, `links
      ensures (Contents(), ok) == Ops.DeleteGroup(old(Contents()), g)
    {
      hide Ops.IsDefaultGroupName, Put, PutFor;
      if g in groups && Ops.IsDefaultGroupName(groups[g].name) {
        return false;
      }
      if g !in groups {
        return false;
      }
      PutNone(memberUsers, g);
      PutNone(memberRoles, g);
      PutForNone(links, g);
      groups := groups - {g};
      memberUsers := set p | p in memberUsers && p.0 != g;
      memberRoles := set p | p in memberRoles && p.0 != g;
      links := set p | p in links && p.1 != g;
      ok := true;
    }

    /** In a transaction: the tables are written back only at the end. */
    method ReplaceGroupMembership(g: nat, ids: seq<int>, roles: seq<string>) returns (ok: bool)
      modifies `memberUsers, `memberRoles
      ensures (Contents(), ok) == Ops.ReplaceGroupMembership(old(Contents()), g, ids, roles)
    {
      hide Ops.CleanIds, CleanRoles, Put, Ops.Elems;
      PutNone(memberUsers, g);
      PutNone(memberRoles, g);
      var newUsers := set p | p in memberUsers && p.0 != g;
      var newRoles := set p | p in memberRoles && p.0 != g;
      var inserted := InsertMembers(g, ids, newUsers, memberUsers);
      if inserted.None? {
        return false;
      }
      var granted := InsertMemberRoles(g, roles, newRoles, memberRoles);
      if granted.None? {
        EmptyElems<nat>();
        return false;
      }
      EmptyElems<nat>();
      memberUsers := inserted.value;
      memberRoles := granted.value;
      ok := true;
    }

    method InsertMembers(g: nat, ids: seq<int>, start: set<(nat, nat)>, ghost rows: set<(nat, nat)>) returns (r: Option<set<(nat, nat)>>)
      requires start == Put(rows, g, {})
      ensures r == if Ops.CleanIds(ids) != [] && (g !in groups || !(Ops.Elems(Ops.CleanIds(ids)) <= users.Keys)) then None
                   else Some(Put(rows, g, Ops.Elems(Ops.CleanIds(ids))))
    {
      hide Ops.CleanIds, Put, Ops.Elems, Ops.Accepted;
      var out := start;
      var seen: set<nat> := {};
      EmptyElems<nat>();
      NoneClean();
      for i := 0 to |ids|
        invariant seen == Ops.Elems(Ops.CleanIds(ids[..i])) && forall u: nat :: u in seen <==> u in Ops.CleanIds(ids[..i])
        invariant (g in groups && seen <= users.Keys) || Ops.CleanIds(ids[..i]) == []
        invariant out == Put(rows, g, seen)
      {
        var uid := ids[i];
        CleanIdsStep(ids, i);
        if uid <= 0 || uid in seen {
          continue;
        }
        if g !in groups || uid !in users {
          RefusedHere(ids, i, users.Keys);
          return None;
        }
        var id: nat := uid;
        ElemsAppend(Ops.CleanIds(ids[..i]), id);
        PutOne(rows, g, seen, id);
        seen := seen + {id};
        out := out + {(g, id)};
      }
      assert ids[..|ids|] == ids;
      r := Some(out);
    }

    method InsertMemberRoles(g: nat, roles: seq<string>, start: set<(nat, string)>, ghost rows: set<(nat, string)>)
      returns (r: Option<set<(nat, string)>>)
      requires start == Put(rows, g, {})
      ensures r == if CleanRoles(roles) != [] && g !in groups then None else Some(Put(rows, g, Ops.Elems(CleanRoles(roles))))
    {
      hide CleanRoles, Put, Ops.Elems, Trim;
      var out := start;
      var seen: set<string> := {};
      EmptyElems<string>();
      NoRoles();
      for i := 0 to |roles|
        invariant seen == Ops.Elems(CleanRoles(roles[..i])) && forall q :: q in seen <==> q in CleanRoles(roles[..i])
        invariant g in groups || CleanRoles(roles[..i]) == []
        invariant out == Put(rows, g, seen)
      {
        var role := Trim(roles[i]);
        CleanRolesStep(roles, i);
        if role == "" || role in seen {
          continue;
        }
        if g !in groups {
          CleanRolesGrow(roles, i + 1);
          return None;
        }
        ElemsAppend(CleanRoles(roles[..i]), role);
        PutOne(rows, g, seen, role);
        seen := seen + {role};
        out := out + {(g, role)};
      }
      assert roles[..|roles|] == roles;
      r := Some(out);
    }

    /** In a transaction too. */
    method ReplaceGroupAccountLinks(g: nat, ids: seq<int>) returns (ok: bool)
      modifies `links
      ensures (Contents(), ok) == Ops.ReplaceGroupAccountLinks(old(Contents()), g, ids)
    {
      hide Ops.CleanIds, PutFor, Ops.Elems, Ops.Accepted;
      PutForNone(links, g);
      var out := set p | p in links && p.1 != g;
      var seen: set<nat> := {};
      EmptyElems<nat>();
      NoneClean();
      for i := 0 to |ids|
        invariant seen == Ops.Elems(Ops.CleanIds(ids[..i])) && forall a: nat :: a in seen <==> a in Ops.CleanIds(ids[..i])
        invariant (g in groups && seen <= accounts.Keys) || Ops.CleanIds(ids[..i]) == []
        invariant out == PutFor(links, g, seen)
        modifies {}
      {
        var aid := ids[i];
        CleanIdsStep(ids, i);
        if aid <= 0 || aid in seen {
          continue;
        }
        if g !in groups || aid !in accounts {
          RefusedHere(ids, i, accounts.Keys);
          return false;
        }
        var id: nat := aid;
        ElemsAppend(Ops.CleanIds(ids[..i]), id);
        PutForOne(links, g, seen, id);
        seen := seen + {id};
        out := out + {(id, g)};
      }
      assert ids[..|ids|] == ids;
      links := out;
      ok := true;
    }

    method AddGroupUser(g: nat, user: nat) returns (ok: bool)
      modifies `memberUsers
      ensures (Contents(), ok) == Ops.AddGroupUser(old(Contents()), g, user)
    {
      if g !in groups || user !in users {
        return false;
      }
      memberUsers := memberUsers + {(g, user)};
      ok := true;
    }

    /** Looks for the default group, and creates or repairs it. */
    method EnsureDefaultGroup() returns (id: Option<nat>)
      modifies `groups, `nextGroup
      ensures (Contents(), id) == Ops.EnsureDefaultGroup(old(Contents()))
    {
      hide Ops.FindGroup, Ops.CreateGroup, Ops.NameTaken, Ops.DefaultGroupDescription;
      var found := FindGroupIDByName(Ops.DEFAULT_GROUP_NAME);
      if found.Some? {
        var g := found.value;
        if g !in groups {
          return Some(g);
        }
        var taken := NameTaken(Ops.DEFAULT_GROUP_NAME, g);
        if taken {
          return None;
        }
        var d := groups[g].description;
        var blank := forall i :: 0 <= i < |d| ==> d[i] == ' ';
        groups := groups[g := Group(Ops.DEFAULT_GROUP_NAME, if blank then Ops.DefaultGroupDescription() else d, "", Ops.KNOWN_COMMANDS)];
        return Some(g);
      }
      id := CreateGroup(Ops.DEFAULT_GROUP_NAME, Ops.DefaultGroupDescription(), "", ["sso", "whoami"]);
    }

    method EnsureUserInDefaultGroupIfNone(user: nat) returns (ok: bool)
      modifies `groups, `nextGroup, `memberUsers
      ensures (Contents(), ok) == Ops.EnsureUserInDefaultGroupIfNone(old(Contents()), user)
    {
      hide Ops.GroupsOf, Ops.EnsureDefaultGroup;
      if user == 0 {
        return true;
      }
      if Ops.GroupsOf(Contents(), user) != {} {
        return true;
      }
      var g := EnsureDefaultGroup();
      if g.None? {
        return false;
      }
      ok := AddGroupUser(g.value, user);
    }
  }

  // ----- Loops over lists alone -----

  method CleanRecipients(owner: nat, shareUsers: seq<int>) returns (out: seq<nat>)
    ensures out == Ops.Recipients(owner, shareUsers)
  {
    hide Ops.Recipients;
    NoRecipients(owner);
    var seen: set<int> := {};
    out := [];
    for i := 0 to |shareUsers|
      invariant out == Ops.Recipients(owner, shareUsers[..i]) && forall u :: u in seen <==> u in out
    {
      RecipientsStep(owner, shareUsers, i);
      var uid := shareUsers[i];
      if uid <= 0 || uid == owner || uid in seen {
        continue;
      }
      seen := seen + {uid};
      out := out + [uid];
    }
    assert shareUsers[..|shareUsers|] == shareUsers;
  }

  method CleanedIds(ids: seq<int>) returns (out: seq<nat>)
    ensures out == Ops.CleanIds(ids)
  {
    hide Ops.CleanIds;
    NoneClean();
    var seen: set<int> := {};
    out := [];
    for i := 0 to |ids|
      invariant out == Ops.CleanIds(ids[..i]) && forall u :: u in seen <==> u in out
    {
      CleanIdsStep(ids, i);
      if ids[i] <= 0 || ids[i] in seen {
        continue;
      }
      seen := seen + {ids[i]};
      out := out + [ids[i]];
    }
    assert ids[..|ids|] == ids;
  }

  method DiffNewShareRecipients(previous: set<nat>, incoming: seq<nat>) returns (added: seq<nat>)
    ensures added == Ops.NewRecipients(previous, incoming)
  {
    added := [];
    for i := 0 to |incoming|
      invariant added == Ops.NewRecipients(previous, incoming[..i])
    {
      NewRecipientsStep(previous, incoming, i);
      if incoming[i] !in previous {
        added := added + [incoming[i]];
      }
    }
    assert incoming[..|incoming|] == incoming;
  }

  /** The result is sorted in the code; here it is a set. */
  method NormalizeDiscordCommands(commands: seq<string>) returns (r: Option<set<string>>)
    ensures r == Ops.NormalizeCommands(commands)
  {
    hide Trim, Lower;
    var out: set<string> := {};
    for i := 0 to |commands|
      invariant Ops.NormalizeCommands(commands[..i]) == Some(out)
    {
      NormalizeStep(commands, i);
      var c := Lower(Trim(commands[i]));
      if c == "" {
        continue;
      }
      if c !in Ops.KNOWN_COMMANDS {
        UnknownCommand(commands, i + 1);
        return None;
      }
      out := out + {c};
    }
    assert commands[..|commands|] == commands;
    r := Some(out);
  }

  lemma NoAliases(t: Tables, username: string, account: nat)
    ensures Ops.AddAliases(t, username, [], account) == t
  {
  }

  lemma NoRecipients(owner: nat)
    ensures Ops.Recipients(owner, []) == []
  {
  }

  lemma RefusedHere(ids: seq<int>, i: nat, known: set<nat>)
    requires i < |ids| && ids[i] > 0 && ids[i] !in Ops.CleanIds(ids[..i])
    ensures Ops.CleanIds(ids) != []
    ensures ids[i] !in known ==> !(Ops.Elems(Ops.CleanIds(ids)) <= known)
  {
    NotEmptyFrom(ids, i);
    assert ids[i] in Ops.Elems(Ops.CleanIds(ids));
  }

  lemma EmptyElems<T>()
    ensures forall xs: seq<T> :: xs == [] ==> Ops.Elems(xs) == {}
  {
  }

  lemma NoRoles()
    ensures CleanRoles([]) == []
  {
  }

  lemma NoneClean()
    ensures Ops.CleanIds([]) == []
  {
  }

  /** A loop that meets an id the database refuses has inserted what the list manages. */
  lemma RefusedAt(ids: seq<int>, i: nat, account: bool, known: set<nat>)
    requires i < |ids| && ids[i] > 0 && ids[i] !in Ops.CleanIds(ids[..i])
    requires (account && Ops.Elems(Ops.CleanIds(ids[..i])) <= known) || Ops.CleanIds(ids[..i]) == []
    requires !account || ids[i] !in known
    ensures var clean := Ops.CleanIds(ids);
      (if account then Ops.Accepted(clean, known) else []) == Ops.CleanIds(ids[..i]) != clean
  {
    if account {
      assert Ops.Elems(Ops.CleanIds(ids[..i])) <= known;
      StoppedAt(ids, i, known);
    } else {
      NotEmptyFrom(ids, i);
    }
  }

  lemma AllTaken(ids: seq<int>, account: bool, known: set<nat>)
    requires (account && Ops.Elems(Ops.CleanIds(ids)) <= known) || Ops.CleanIds(ids) == []
    ensures var clean := Ops.CleanIds(ids);
      (if account then Ops.Accepted(clean, known) else []) == clean
  {
    if account {
      AcceptedAll(Ops.CleanIds(ids), known);
    }
  }
}
