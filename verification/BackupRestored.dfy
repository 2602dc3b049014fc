// A store as it reappears on another host: the same users, accounts and groups under the ids
// that host gives them.
module BackupRestored {
  import opened Access
  import opened BackupAccounts
  import opened BackupExport
  import opened BackupHosts
  import opened BackupNames
  import opened BackupOps
  import opened Roles
  import opened StoreLoops
  import opened StoreOps
  import opened Tables
  import opened Text
  import opened Wrappers

  /** The user of r with the Discord id of u. */
  function UserIn(s: Tables, r: Tables, u: nat): nat {
    if u in s.users && s.users[u].discordId in r.userIds then r.userIds[s.users[u].discordId] else 0
  }

  function UsersIn(s: Tables, r: Tables, us: set<nat>): set<nat> {
    set u | u in us :: UserIn(s, r, u)
  }

  ghost predicate UserRestored(s: Tables, r: Tables, u: nat) {
    && u in s.users && s.users[u].discordId in r.userIds
    && UserIn(s, r, u) in r.users && r.users[UserIn(s, r, u)] == s.users[u]
  }

  ghost predicate UsersRestored(s: Tables, r: Tables) {
    forall u :: u in s.users ==> UserRestored(s, r, u)
  }

  /** What host t has under the username of s's account a. */
  function Held(s: Tables, t: Tables, a: nat): Option<nat> {
    if a in s.accounts && AccountKey(s.accounts[a].username) in t.accountIds
    then Some(t.accountIds[AccountKey(s.accounts[a].username)]) else None
  }

  /** Account a of s as it must be on a host that was t and is now r, but for its groups. What
      the backup does not carry is t's: a restricted account's disabled flag, an open
      account's owner and recipients, and the alias that is the username. */
  function CarriedAccount(s: Tables, t: Tables, r: Tables, a: nat): Option<Account> {
    if a !in s.accounts then None
    else
      var account := s.accounts[a];
      match Held(s, t, a)
      case Some(b) =>
        if b !in t.accounts then None
        else if account.restricted && account.owner.Some? then
          Some(Account(t.accounts[b].username, account.password, t.accounts[b].disabled, true, Some(UserIn(s, r, account.owner.value))))
        else Some(Account(t.accounts[b].username, account.password, account.disabled, t.accounts[b].restricted, t.accounts[b].owner))
      case None =>
        if account.restricted && account.owner.Some? then
          Some(Account(account.username, account.password, false, true, Some(UserIn(s, r, account.owner.value))))
        else Some(Account(account.username, account.password, account.disabled, false, None))
  }

  /** The listed ids before the first of a revoked user. */
  function BeforeRevoked(s: Tables, ids: seq<string>): seq<string> {
    if ids == [] || (ids[0] in s.userIds && s.userIds[ids[0]] !in Sharable(s)) then []
    else [ids[0]] + BeforeRevoked(s, ids[1..])
  }

  function IdUsers(s: Tables, ids: seq<string>): set<nat> {
    set id | id in ids && id in s.userIds :: s.userIds[id]
  }

  /** Account a when its share was refused for a revoked recipient: what t held for it, with the
      recipients before him and the listed aliases added. */
  function HaltedIn(s: Tables, t: Tables, r: Tables, a: nat, sharedIds: seq<string>, groups: set<nat>): Row {
    var held := HeldRow(s, t, a);
    var username := if a in s.accounts then s.accounts[a].username else "";
    held.(account := CarriedAccount(s, t, r, a), users := {},
          shares := UsersIn(s, r, IdUsers(s, BeforeRevoked(s, sharedIds))), groups := groups,
          aliases := Merged(held.aliases, OtherNames(RowOf(s, a).aliases, username)))
  }

  function HeldRow(s: Tables, t: Tables, a: nat): Row {
    match Held(s, t, a)
    case Some(b) => RowOf(t, b)
    case None => Row(None, {}, {}, {}, {}, {}, {}, {})
  }

  function CarriedRow(s: Tables, t: Tables, r: Tables, a: nat, groups: set<nat>): Row {
    var row, held := RowOf(s, a), HeldRow(s, t, a);
    var username := if a in s.accounts then s.accounts[a].username else "";
    var restricted := a in s.accounts && s.accounts[a].restricted;
    Row(CarriedAccount(s, t, r, a), row.roles,
        if restricted then {} else UsersIn(s, r, row.users),
        if restricted then UsersIn(s, r, row.shares) else held.shares,
        groups,
        OwnName(held.aliases, username) + OtherNames(row.aliases, username), row.characters, row.tags)
  }

  /** The group links t held for an account that a row does not clear. */
  function LinksBefore(s: Tables, t: Tables, a: nat): set<nat> {
    if LiveAccount(s, a) then {} else HeldRow(s, t, a).groups
  }

  /** Account a on the other host, whether its row went through or was halted. */
  function RestoredRow(s: Tables, t: Tables, r: Tables, a: nat, sharedIds: seq<string>, groups: set<nat>): Row {
    if LiveAccount(s, a) then CarriedRow(s, t, r, a, groups) else HaltedIn(s, t, r, a, sharedIds, groups)
  }

  // ----- Looking users up -----

  lemma {:induction false} LookupAll(dir: map<string, nat>, ids: seq<string>)
    requires forall i :: 0 <= i < |ids| ==> IsTrimmed(ids[i]) && ids[i] in dir
    ensures forall x :: x in Lookup(dir, ids) <==> exists id :: id in ids && id in dir && dir[id] == x
  {
    if ids != [] {
      var last := |ids| - 1;
      LookupAll(dir, ids[..last]);
      TrimOfTrimmed(ids[last]);
      assert ids == ids[..last] + [ids[last]];
      assert forall id :: id in ids <==> id in ids[..last] || id == ids[last];
    }
  }

  /** A list of exported Discord ids finds exactly the users it stood for. */
  lemma LookupExported(s: Tables, r: Tables, ids: seq<string>, us: set<nat>)
    requires UsersRestored(s, r) && us <= s.users.Keys && Elems(ids) == DiscordIds(s, us)
    requires forall u :: u in s.users ==> UserGood(s.users[u])
    ensures Elems(Lookup(Directory(r), ids)) == UsersIn(s, r, us)
  {
    hide IsTrimmed, IsClean, Lookup;
    var dir := Directory(r);
    forall i | 0 <= i < |ids|
      ensures IsTrimmed(ids[i]) && ids[i] in dir
    {
      assert ids[i] in Elems(ids);
      var u :| u in us && u in Listed(s) && s.users[u].discordId == ids[i];
      assert UserRestored(s, r, u);
    }
    LookupAll(dir, ids);
    forall x | x in Lookup(dir, ids)
      ensures x in UsersIn(s, r, us)
    {
      var id :| id in ids && id in dir && dir[id] == x;
      assert id in Elems(ids);
    }
    forall u | u in us
      ensures UserIn(s, r, u) in Lookup(dir, ids)
    {
      assert UserRestored(s, r, u) && UserGood(s.users[u]);
      assert s.users[u].discordId in Elems(ids);
    }
  }

  lemma DirectoryGood(r: Tables)
    requires Valid(r)
    ensures DirectoryOf(Directory(r), r)
  {
  }

  /** Restored users are different when they were. */
  lemma UserInInjective(s: Tables, r: Tables, u: nat, v: nat)
    requires Valid(s) && UsersRestored(s, r) && u in s.users && v in s.users && UserIn(s, r, u) == UserIn(s, r, v)
    ensures u == v
  {
    assert UserRestored(s, r, u) && UserRestored(s, r, v);
  }

  // ----- Recipients up to a revoked one -----

  lemma {:induction false} LookupEach(dir: map<string, nat>, ids: seq<string>)
    requires forall i :: 0 <= i < |ids| ==> IsTrimmed(ids[i]) && ids[i] in dir
    ensures |Lookup(dir, ids)| == |ids| && forall i :: 0 <= i < |ids| ==> Lookup(dir, ids)[i] == dir[ids[i]]
  {
    hide IsTrimmed;
    if ids != [] {
      LookupEach(dir, ids[..|ids| - 1]);
      TrimOfTrimmed(ids[|ids| - 1]);
    }
  }

  lemma {:induction false} BeforeRevokedIs(s: Tables, ids: seq<string>)
    ensures var n := |BeforeRevoked(s, ids)|;
      && n <= |ids| && BeforeRevoked(s, ids) == ids[..n]
      && (forall i :: 0 <= i < n && ids[i] in s.userIds ==> s.userIds[ids[i]] in Sharable(s))
      && (n < |ids| ==> ids[n] in s.userIds && s.userIds[ids[n]] !in Sharable(s))
  {
    hide Sharable;
    if ids != [] {
      BeforeRevokedIs(s, ids[1..]);
    }
  }

  lemma {:induction false} NoOwnerAmong(owner: nat, users: seq<int>)
    requires owner !in users
    ensures WithoutOwner(owner, users) == users
  {
    if users != [] {
      NoOwnerAmong(owner, users[..|users| - 1]);
      assert users == users[..|users| - 1] + [users[|users| - 1]];
    }
  }

  /** Inserting the cleaned list takes what comes before the first item that is refused. */
  lemma AcceptedUpTo(xs: seq<nat>, known: set<nat>, n: nat)
    requires n <= |xs| && forall i :: 0 <= i < |xs| ==> xs[i] > 0
    requires (forall i :: 0 <= i < n ==> xs[i] in known) && (n < |xs| ==> xs[n] !in known)
    ensures Elems(Accepted(CleanIds(xs), known)) == Elems(xs[..n])
  {
    var ys := xs[..n];
    CleanIdsAre(ys);
    PositiveIds(ys);
    if n == |xs| {
      assert ys == xs;
      AcceptedAll(CleanIds(xs), known);
    } else {
      StoppedAt(xs, n, known);
    }
  }

  /** The recipients a refused row leaves are those listed before the first revoked one. */
  lemma HaltedShares(s: Tables, r: Tables, owner: nat, us: set<nat>, ids: seq<string>)
    requires Valid(s) && Valid(r) && UsersRestored(s, r) && forall u :: u in s.users ==> UserGood(s.users[u])
    requires us <= s.users.Keys && owner in s.users && owner !in us && Elems(ids) == DiscordIds(s, us)
    ensures Elems(Accepted(Recipients(UserIn(s, r, owner), Lookup(Directory(r), ids)), Sharable(r)))
         == UsersIn(s, r, IdUsers(s, BeforeRevoked(s, ids)))
  {
    hide IsTrimmed, IsClean, Lookup, Accepted, CleanIds, WithoutOwner, Valid, BeforeRevoked, Elems, UserIn;
    var dir, n := Directory(r), |BeforeRevoked(s, ids)|;
    forall i | 0 <= i < |ids|
      ensures IsTrimmed(ids[i]) && ids[i] in dir && ids[i] in s.userIds
      ensures s.userIds[ids[i]] in us && dir[ids[i]] == UserIn(s, r, s.userIds[ids[i]])
      ensures dir[ids[i]] > 0 && dir[ids[i]] != UserIn(s, r, owner)
      ensures dir[ids[i]] in Sharable(r) <==> s.userIds[ids[i]] in Sharable(s)
    {
      ListedId(s, r, us, ids, i);
      if dir[ids[i]] == UserIn(s, r, owner) {
        UserInInjective(s, r, s.userIds[ids[i]], owner);
      }
    }
    LookupEach(dir, ids);
    var xs := Lookup(dir, ids);
    NoOwnerAmong(UserIn(s, r, owner), xs);
    BeforeRevokedIs(s, ids);
    AcceptedUpTo(xs, Sharable(r), n);
    UsersOfIds(s, r, xs, ids, n);
  }

  lemma ListedId(s: Tables, r: Tables, us: set<nat>, ids: seq<string>, i: nat)
    requires Valid(s) && Valid(r) && UsersRestored(s, r) && forall u :: u in s.users ==> UserGood(s.users[u])
    requires us <= s.users.Keys && Elems(ids) == DiscordIds(s, us) && i < |ids|
    ensures IsTrimmed(ids[i]) && ids[i] in Directory(r) && ids[i] in s.userIds && s.userIds[ids[i]] in us
    ensures var x := Directory(r)[ids[i]];
      x == UserIn(s, r, s.userIds[ids[i]]) && x > 0 && (x in Sharable(r) <==> s.userIds[ids[i]] in Sharable(s))
  {
    hide IsTrimmed, IsClean, AccountsIndexed, NamesFiled, TagsFiled, KeysIn, ValuesIn, GroupsNumbered, OwnersIn, NamesRefer, TagsRefer;
    assert ids[i] in Elems(ids);
    var u :| u in us && u in Listed(s) && s.users[u].discordId == ids[i];
    assert UserRestored(s, r, u) && UserGood(s.users[u]);
  }

  lemma UsersOfIds(s: Tables, r: Tables, xs: seq<nat>, ids: seq<string>, n: nat)
    requires |xs| == |ids| && n <= |ids|
    requires forall i :: 0 <= i < |ids| ==> ids[i] in s.userIds && xs[i] == UserIn(s, r, s.userIds[ids[i]])
    ensures Elems(xs[..n]) == UsersIn(s, r, IdUsers(s, ids[..n]))
  {
    hide UserIn;
    forall i | 0 <= i < n
      ensures xs[i] in UsersIn(s, r, IdUsers(s, ids[..n])) && UserIn(s, r, s.userIds[ids[i]]) in Elems(xs[..n])
    {
      assert ids[..n][i] == ids[i] && xs[..n][i] == xs[i];
      assert s.userIds[ids[i]] in IdUsers(s, ids[..n]);
    }
  }
}
