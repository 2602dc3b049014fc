// What the theorem means: on the same host nothing changes, and on a fresh host the same
// people may use the same accounts.
module BackupUse {
  import opened Access
  import opened BackupExport
  import opened BackupGroups
  import opened BackupHosts
  import opened BackupMain
  import opened BackupNames
  import opened BackupOps
  import opened BackupRestored
  import opened BackupRoundTrip
  import opened StoreOps
  import opened Tables
  import opened Text
  import opened Wrappers

  // ----- The same host -----

  /** Every table is the same; serial counters may have skipped. */
  ghost predicate SameRows(s: Tables, r: Tables) {
    r == s.(nextUser := r.nextUser, nextAccount := r.nextAccount, nextGroup := r.nextGroup)
  }

  ghost predicate NoDirectGrantsOnRestricted(s: Tables) {
    forall a :: a in s.accounts && s.accounts[a].restricted ==> Of(s.accessUsers, a) == {}
  }

  ghost predicate NoRevokedRecipients(s: Tables) {
    forall a :: a in s.accounts ==> LiveAccount(s, a)
  }

  ghost predicate DescriptionsTrimmed(s: Tables) {
    forall g :: g in s.groups ==> IsTrimmed(s.groups[g].description)
  }

  lemma FitsItself(s: Tables, withPasswords: bool)
    requires Restorable(s)
    ensures Compatible(s, s, withPasswords)
  {
    hide UserGood, GroupGood, RolesGood, IsTrimmed, GroupsDistinct, UsersIndexed, GroupsNumbered, NamesFiled, TagsFiled, KeysIn, ValuesIn, Trim,
         AccountKey;
    forall a | a in s.accounts
      ensures AccountFits(s, s, withPasswords, a)
    {
      assert AccountGood(s, a);
      IndexedByKey(s, a);
    }
  }

  /** On its own host everything is found under its own id. */
  lemma SameIds(s: Tables, r: Tables)
    requires Restorable(s) && NothingElse(s, s, r) && UsersRestored(s, r)
    ensures forall u :: u in s.users ==> UserIn(s, r, u) == u
    ensures forall a :: a in s.accounts ==> AccountIn(s, r, a) == a && Held(s, s, a) == Some(a)
    ensures forall g :: g in s.groups ==> GroupIn(s, r, g) == g
  {
    hide UserGood, AccountGood, GroupGood, IsTrimmed, Lower, Trim, FindGroup;
    forall a | a in s.accounts
      ensures AccountIn(s, r, a) == a && Held(s, s, a) == Some(a)
    {
      IndexedByKey(s, a);
    }
    forall g | g in s.groups
      ensures GroupIn(s, r, g) == g
    {
      FindIs(s, s.groups[g].name);
    }
  }

  lemma SameSets(s: Tables, r: Tables, us: set<nat>, gs: set<nat>)
    requires forall u :: u in us ==> UserIn(s, r, u) == u
    requires forall g :: g in gs ==> GroupIn(s, r, g) == g
    ensures UsersIn(s, r, us) == us && GroupsIn(s, r, gs) == gs
  {
    hide UserIn, GroupIn;
  }

  lemma OwnAndOther(aliases: set<string>, username: string)
    requires "" !in aliases
    ensures OwnName(aliases, username) + OtherNames(aliases, username) == aliases
  {
  }

  lemma NoBlankName(names: map<string, Named>, a: nat)
    requires NamesFiled(names)
    ensures "" !in NamesOf(names, a)
  {
  }

  /** On its own host the carried row is the row itself, but for direct grants on a restricted
      account. */
  lemma CarriedIsSame(s: Tables, r: Tables, a: nat)
    requires Restorable(s) && a in s.accounts && UsersRestored(s, r)
    requires NothingElse(s, s, r)
    ensures CarriedRow(s, s, r, a, GroupsIn(s, r, Of(s.links, a)))
         == RowOf(s, a).(users := if s.accounts[a].restricted then {} else Of(s.accessUsers, a))
  {
    hide UserGood, GroupGood, IsTrimmed, Lower, Trim, FindGroup, UsersIndexed, AccountsIndexed, GroupsNumbered, NamesFiled, TagsFiled, KeysIn,
         ValuesIn, NamesRefer, TagsRefer, Of, NamesOf, TagsOf, UserIn, GroupIn, OwnName, OtherNames, Held, GroupsDistinct, AccountKey,
         UsersIn, GroupsIn, NothingElse, UsersRestored, RolesGood, Sharable;
    assert AccountGood(s, a);
    SameIds(s, r);
    LinksInRange(s, 0);
    SameSets(s, r, Of(s.accessUsers, a), Of(s.links, a));
    SameSets(s, r, Of(s.shares, a), {});
    NoBlankName(s.aliases, a);
    OwnAndOther(NamesOf(s.aliases, a), s.accounts[a].username);
  }

  /** On its own host a halted account has lost its direct grants and the recipients from the
      first revoked one on; the rest is as it was. */
  lemma HaltedIsSame(s: Tables, r: Tables, a: nat, ids: seq<string>)
    requires Restorable(s) && a in s.accounts && s.accounts[a].restricted && UsersRestored(s, r)
    requires NothingElse(s, s, r)
    ensures HaltedIn(s, s, r, a, ids, LinksAfter(s, r, a, Of(s.links, a)))
         == RowOf(s, a).(users := {}, shares := IdUsers(s, BeforeRevoked(s, ids)))
  {
    hide UserGood, GroupGood, IsTrimmed, Lower, Trim, FindGroup, AccountsIndexed, GroupsNumbered, NamesFiled, TagsFiled, KeysIn,
         ValuesIn, NamesRefer, TagsRefer, Of, NamesOf, TagsOf, UserIn, GroupIn, Held, GroupsDistinct, AccountKey, Merged,
         UsersIn, GroupsIn, NothingElse, UsersRestored, RolesGood, BeforeRevoked;
    assert AccountGood(s, a);
    SameIds(s, r);
    LinksInRange(s, 0);
    SameSets(s, r, IdUsers(s, BeforeRevoked(s, ids)), Of(s.links, a));
    SameSets(s, r, {}, s.groups.Keys);
    MergedSame(NamesOf(s.aliases, a), OtherNames(NamesOf(s.aliases, a), s.accounts[a].username));
  }

  lemma MergedSame(held: set<string>, texts: set<string>)
    requires texts <= held
    ensures Merged(held, texts) == held
  {
    hide Lower;
  }

  /** Account b's row after an import on its own host. */
  function SameHostRow(s: Tables, b: nat, sharedIds: seq<string>): Row {
    var restricted := b in s.accounts && s.accounts[b].restricted;
    RowOf(s, b).(users := if restricted then {} else Of(s.accessUsers, b),
                 shares := if LiveAccount(s, b) then Of(s.shares, b) else IdUsers(s, BeforeRevoked(s, sharedIds)))
  }

  lemma RowSame(s: Tables, r: Tables, a: nat, ids: seq<string>)
    requires Restorable(s) && UsersRestored(s, r) && NothingElse(s, s, r) && AccountRestored(s, s, r, a, ids)
    ensures RowOf(r, a) == SameHostRow(s, a, ids)
  {
    hide Valid, UserGood, AccountGood, GroupGood, FindGroup, GroupsDistinct, CarriedRow, HaltedIn, UserIn, GroupIn, AccountKey, Of, NamesOf,
         TagsOf, BeforeRevoked, IdUsers, NothingElse, UsersRestored, GroupsIn;
    SameIds(s, r);
    if LiveAccount(s, a) {
      CarriedIsSame(s, r, a);
      assert LinksAfter(s, r, a, {}) == GroupsIn(s, r, Of(s.links, a));
    } else {
      HaltedIsSame(s, r, a, ids);
    }
  }

  lemma RowOfOther(s: Tables, r: Tables, b: nat)
    requires Restorable(s) && Valid(r) && NothingElse(s, s, r) && b !in s.accounts
    ensures RowOf(r, b) == RowOf(s, b) && r.accountIds == s.accountIds
  {
    hide UserGood, AccountGood, GroupGood, RowOf, FindGroup, GroupsDistinct, GroupIn, AccountKey;
    hide Valid;
    SameKeys(s, r);
    BareRow(s, b);
    BareRow(r, b);
  }

  /** An account exists exactly under an indexed key. */
  lemma SameKeys(s: Tables, r: Tables)
    requires Valid(s) && Valid(r) && r.accountIds.Keys == s.accountIds.Keys && forall k :: k in s.accountIds ==> r.accountIds[k] == s.accountIds[k]
    ensures r.accounts.Keys == s.accounts.Keys
  {
    hide AccountKey;
    forall a
      ensures a in r.accounts <==> a in s.accounts
    {
    }
  }

  lemma SameLinks<V>(rows: set<(nat, V)>, rows': set<(nat, V)>)
    requires forall k: nat :: Of(rows', k) == Of(rows, k)
    ensures rows' == rows
  {
    forall p: (nat, V)
      ensures p in rows' <==> p in rows
    {
      InOf(rows, p.0, p.1);
      InOf(rows', p.0, p.1);
      assert p == (p.0, p.1);
    }
  }

  lemma SameNames(names: map<string, Named>, names': map<string, Named>)
    requires NamesFiled(names) && NamesFiled(names')
    requires forall b: nat :: NamesOf(names', b) == NamesOf(names, b)
    ensures names' == names
  {
    forall k
      ensures k in names' <==> k in names
      ensures k in names && k in names' ==> names'[k] == names[k]
    {
      if k in names {
        InNamesOf(names, names[k].account, names[k].text);
        InNamesOf(names', names[k].account, names[k].text);
      }
      if k in names' {
        InNamesOf(names, names'[k].account, names'[k].text);
        InNamesOf(names', names'[k].account, names'[k].text);
      }
    }
  }

  lemma SameTags(tags: map<(string, nat), string>, tags': map<(string, nat), string>)
    requires TagsFiled(tags) && TagsFiled(tags')
    requires forall b: nat :: TagsOf(tags', b) == TagsOf(tags, b)
    ensures tags' == tags
  {
    forall k
      ensures k in tags' <==> k in tags
      ensures k in tags && k in tags' ==> tags'[k] == tags[k]
    {
      if k in tags {
        InTagsOf(tags, k.1, tags[k]);
        InTagsOf(tags', k.1, tags[k]);
      }
      if k in tags' {
        InTagsOf(tags, k.1, tags'[k]);
        InTagsOf(tags', k.1, tags'[k]);
      }
    }
  }

  lemma AccountTablesSame(s: Tables, r: Tables)
    requires Valid(s) && Valid(r)
    requires forall b: nat :: RowOf(r, b) == RowOf(s, b)
    ensures r.accounts == s.accounts && r.accessRoles == s.accessRoles && r.accessUsers == s.accessUsers && r.shares == s.shares
    ensures r.links == s.links && r.aliases == s.aliases && r.characters == s.characters && r.tags == s.tags
  {
    hide UsersIndexed, AccountsIndexed, GroupsNumbered, OwnersIn, NamesFiled, TagsFiled, KeysIn, ValuesIn, NamesRefer, TagsRefer, Of, NamesOf, TagsOf;
    forall b: nat
      ensures Of(r.accessRoles, b) == Of(s.accessRoles, b) && Of(r.accessUsers, b) == Of(s.accessUsers, b)
      ensures Of(r.shares, b) == Of(s.shares, b) && Of(r.links, b) == Of(s.links, b)
      ensures NamesOf(r.aliases, b) == NamesOf(s.aliases, b) && NamesOf(r.characters, b) == NamesOf(s.characters, b)
      ensures TagsOf(r.tags, b) == TagsOf(s.tags, b)
      ensures b in r.accounts <==> b in s.accounts
      ensures b in r.accounts ==> r.accounts[b] == s.accounts[b]
    {
      assert RowOf(r, b) == RowOf(s, b);
    }
    SameLinks(s.accessRoles, r.accessRoles);
    SameLinks(s.accessUsers, r.accessUsers);
    SameLinks(s.shares, r.shares);
    SameLinks(s.links, r.links);
    SameNames(s.aliases, r.aliases);
    SameNames(s.characters, r.characters);
    SameTags(s.tags, r.tags);
  }

  lemma UserTablesSame(s: Tables, r: Tables)
    requires Restorable(s) && UsersRestored(s, r) && NothingElse(s, s, r) && Valid(r)
    ensures r.users == s.users && r.userIds == s.userIds
  {
    hide UserGood, AccountGood, GroupGood, GroupsDistinct, AccountsIndexed;
    SameIds(s, r);
    forall u
      ensures u in r.users <==> u in s.users
      ensures u in s.users && u in r.users ==> r.users[u] == s.users[u]
    {
      if u in s.users {
        assert UserRestored(s, r, u);
      }
    }
  }

  lemma GroupTablesSame(s: Tables, r: Tables)
    requires Restorable(s) && Valid(r) && NothingElse(s, s, r) && UsersRestored(s, r)
    requires forall g :: g in s.groups ==> GroupRestored(s, s, r, g)
    ensures r.groups == s.groups <==> DescriptionsTrimmed(s)
    ensures r.memberUsers == s.memberUsers && r.memberRoles == s.memberRoles
  {
    hide UserGood, AccountGood, GroupGood, GroupsDistinct, AccountsIndexed, UsersIndexed, NamesFiled, TagsFiled, ValuesIn, OwnersIn, Of, UserIn,
         GroupIn, FindGroup, UsersIn, UsersRestored, IsTrimmed, Trim;
    SameIds(s, r);
    forall g | g in s.groups
      ensures g in r.groups && (r.groups[g] == s.groups[g] <==> IsTrimmed(s.groups[g].description))
      ensures Of(r.memberUsers, g) == Of(s.memberUsers, g) && Of(r.memberRoles, g) == Of(s.memberRoles, g)
    {
      assert GroupRestored(s, s, r, g);
      FoundItself(s, g);
      TrimFixed(s.groups[g].description);
      LinksInRange(s, g);
      SameSets(s, r, Of(s.memberUsers, g), {});
    }
    assert r.groups.Keys == s.groups.Keys;
    forall g: nat
      ensures Of(r.memberUsers, g) == Of(s.memberUsers, g) && Of(r.memberRoles, g) == Of(s.memberRoles, g)
    {
      if g !in s.groups {
        NoRows(s.memberUsers, g, s.groups.Keys);
        NoRows(r.memberUsers, g, r.groups.Keys);
        NoRows(s.memberRoles, g, s.groups.Keys);
        NoRows(r.memberRoles, g, r.groups.Keys);
      }
    }
    SameLinks(s.memberUsers, r.memberUsers);
    SameLinks(s.memberRoles, r.memberRoles);
  }

  lemma FoundItself(s: Tables, g: nat)
    requires Restorable(s) && g in s.groups
    ensures FindGroup(s, s.groups[g].name).Some?
  {
    hide UserGood, AccountGood, GroupGood, IsTrimmed, Lower, Trim, FindGroup;
    FindIs(s, s.groups[g].name);
  }

  /** The halted account's recipients differ from before: the revoked one is gone. */
  lemma RevokedIsGone(s: Tables, a: nat, ids: seq<string>)
    requires !LiveAccount(s, a)
    ensures IdUsers(s, BeforeRevoked(s, ids)) != Of(s.shares, a)
  {
    hide Of, Sharable;
    BeforeRevokedIs(s, ids);
    var n := |BeforeRevoked(s, ids)|;
    forall u | u in IdUsers(s, BeforeRevoked(s, ids))
      ensures u in Sharable(s)
    {
      var id :| id in BeforeRevoked(s, ids) && id in s.userIds && s.userIds[id] == u;
      var i :| 0 <= i < n && BeforeRevoked(s, ids)[i] == id;
    }
  }

  /** Same host: importing an export, with passwords or without, returns every table to what it
      was, exactly when no restricted account has a direct user grant or a revoked recipient
      and every group's description is trimmed. */
  lemma SameHostIdentity(s: Tables, withPasswords: bool, bak: Backup, index: Index)
    requires Restorable(s) && Exports(s, withPasswords, bak, index)
    ensures SameRows(s, Import(s, bak)) <==>
      NoDirectGrantsOnRestricted(s) && NoRevokedRecipients(s) && DescriptionsTrimmed(s)
  {
    hide Valid, Restorable, Exports, Compatible, Import, RowOf, NothingElse, Of, LiveAccount, AccountRestored, GroupRestored, UsersRestored,
         GroupsDistinct, IsTrimmed, IdUsers, BeforeRevoked, SameHostRow;
    var r := Import(s, bak);
    FitsItself(s, withPasswords);
    ImportRestores(s, s, withPasswords, bak, index);
    RestorableValid(s);
    UserTablesSame(s, r);
    GroupTablesSame(s, r);
    forall a | a in s.accounts
      ensures RowOf(r, a) == RowOf(s, a) <==> LiveAccount(s, a) && (s.accounts[a].restricted ==> Of(s.accessUsers, a) == {})
    {
      var i := RowOfAccount(s, withPasswords, bak, index, a);
      RowSame(s, r, a, bak.accounts[i].sharedIds);
      RowDiffers(s, a, bak.accounts[i].sharedIds);
    }
    if SameRows(s, r) {
      forall a
        ensures RowOf(r, a) == RowOf(s, a)
      {
        RowsOfSame(s, r, a);
      }
    }
    if NoDirectGrantsOnRestricted(s) && NoRevokedRecipients(s) && DescriptionsTrimmed(s) {
      forall b: nat
        ensures RowOf(r, b) == RowOf(s, b)
      {
        if b !in s.accounts {
          RowOfOther(s, r, b);
        }
      }
      RowOfOther(s, r, NextIsNone(s));
      AccountTablesSame(s, r);
    }
  }

  function NextIsNone(s: Tables): (a: nat)
    requires Valid(s)
    ensures a !in s.accounts
  {
    NextIsFree(s);
    s.nextAccount
  }

  lemma RowDiffers(s: Tables, a: nat, ids: seq<string>)
    requires a in s.accounts
    ensures SameHostRow(s, a, ids) == RowOf(s, a) <==> LiveAccount(s, a) && (s.accounts[a].restricted ==> Of(s.accessUsers, a) == {})
  {
    hide Of, NamesOf, TagsOf, LiveAccount, IdUsers, BeforeRevoked;
    if !LiveAccount(s, a) {
      RevokedIsGone(s, a, ids);
    }
  }

  lemma RowsOfSame(s: Tables, r: Tables, a: nat)
    requires SameRows(s, r)
    ensures RowOf(r, a) == RowOf(s, a)
  {
  }
}
