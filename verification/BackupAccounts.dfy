// The accounts stage of an import: each row rebuilds one account, whatever the store held for
// it, and touches no other.
module BackupAccounts {
  import opened Access
  import opened AccessGrants
  import opened BackupNames
  import opened BackupOps
  import opened Roles
  import opened StoreOps
  import opened Tables
  import opened Text
  import opened Wrappers

  /** The directory names stored users only. */
  ghost predicate DirectoryOf(dir: map<string, nat>, t: Tables) {
    forall d :: d in dir ==> dir[d] in t.users && dir[d] > 0
  }

  lemma {:induction false} LookupKnown(t: Tables, dir: map<string, nat>, ids: seq<string>)
    requires DirectoryOf(dir, t)
    ensures forall u :: u in Lookup(dir, ids) ==> u in t.users && u > 0
  {
    if ids != [] {
      LookupKnown(t, dir, ids[..|ids| - 1]);
    }
  }

  lemma PositiveIds(ids: seq<nat>)
    requires forall i :: i in ids ==> i > 0
    ensures Elems(CleanIds(ids)) == Elems(ids)
  {
    CleanIdsAre(ids);
  }

  lemma RecipientsAre(owner: nat, users: seq<nat>)
    requires forall i :: i in users ==> i > 0
    ensures Elems(Recipients(owner, users)) == Elems(users) - {owner}
  {
    RecipientsMean(owner, users);
  }

  // ----- Rows that can be used -----

  /** The names of a row are good and free for its account. */
  ghost predicate NamesUsable(t: Tables, row: AccountRow) {
    && TextsGood(row.aliases) && NoneIs(row.aliases, Some(row.username)) && FreeFor(row.aliases, t.aliases, AccountFor(t, row.username))
    && TextsGood(row.characters) && FreeFor(row.characters, t.characters, AccountFor(t, row.username))
    && TextsGood(row.tags)
  }

  ghost predicate ShareUsable(t: Tables, dir: map<string, nat>, row: AccountRow) {
    && row.ownerId in dir && row.ownerId != "" && IsTrimmed(row.ownerId)
    && CanShare(t, dir[row.ownerId], row.username, row.password)
  }

  /** No recipient of the row is revoked. */
  ghost predicate Live(t: Tables, dir: map<string, nat>, row: AccountRow) {
    row.restricted && row.ownerId in dir ==> Elems(Recipients(dir[row.ownerId], Lookup(dir, row.sharedIds))) <= Sharable(t)
  }

  ghost predicate OpenUsable(t: Tables, row: AccountRow) {
    FindAccount(t, row.username).None? ==> Trim(row.password) != ""
  }

  ghost predicate RowUsable(t: Tables, dir: map<string, nat>, row: AccountRow) {
    && row.username != "" && IsTrimmed(row.username)
    && NamesUsable(t, row)
    && if row.restricted then ShareUsable(t, dir, row) else OpenUsable(t, row)
  }

  // ----- What a usable row leaves -----

  function OpenAccount(t: Tables, row: AccountRow): Account {
    match FindAccount(t, row.username)
    case Some(id) =>
      if id in t.accounts
      then t.accounts[id].(password := if Trim(row.password) != "" then row.password else t.accounts[id].password,
                           disabled := row.disabled)
      else Account(row.username, row.password, row.disabled, false, None)
    case None => Account(row.username, row.password, row.disabled, false, None)
  }

  /** A restricted row with a revoked recipient gets as far as the recipients before him: roles,
      group links, tags and characters stay what they were, and aliases are only added. */
  ghost function HaltedRow(t: Tables, owner: nat, recipients: seq<nat>, row: AccountRow): Row {
    var before := RowOf(t, AccountFor(t, row.username));
    before.(account := SharedAccount(t, owner, row.username, row.password), users := {},
            shares := Elems(Accepted(recipients, Sharable(t))), aliases := Merged(before.aliases, Elems(row.aliases)))
  }

  ghost function RowAfter(t: Tables, dir: map<string, nat>, row: AccountRow): Row {
    var before := RowOf(t, AccountFor(t, row.username));
    var aliases := OwnName(before.aliases, row.username) + Elems(row.aliases);
    if row.restricted && row.ownerId in dir then
      var recipients := Recipients(dir[row.ownerId], Lookup(dir, row.sharedIds));
      if !Live(t, dir, row) then HaltedRow(t, dir[row.ownerId], recipients, row)
      else
        Row(SharedAccount(t, dir[row.ownerId], row.username, row.password), Elems(CleanRoles(row.roles)), {},
            Elems(recipients), {}, aliases, Elems(row.characters), Elems(row.tags))
    else
      Row(Some(OpenAccount(t, row)), Elems(CleanRoles(row.roles)), Elems(CleanIds(Lookup(dir, row.userIds))), before.shares, {},
          aliases, Elems(row.characters), Elems(row.tags))
  }

  lemma FoundAccount(t: Tables, username: string)
    requires Valid(t) && FindAccount(t, username).Some?
    ensures var id := FindAccount(t, username).value;
      id in t.accounts && id > 0 && t.accountIds[AccountKey(username) := id] == t.accountIds
      && AccountKey(username) in t.accountIds && t.accountIds[AccountKey(username)] == id
  {
    hide AccountKey;
  }

  /** Finding or creating the account of an open row, with its password. */
  lemma NamedStep(t: Tables, row: AccountRow)
    requires Valid(t) && row.username != "" && IsTrimmed(row.username) && OpenUsable(t, row)
    ensures var (t1, id) := PlaceNamed(t, row.username, row);
      var a := AccountFor(t, row.username);
      && id == Some(a)
      && OneRow(t, t1, a, AccountKey(row.username))
      && RowOf(t1, a) == RowOf(t, a).(account := Some(OpenAccount(t, row).(
           disabled := if a in t.accounts then t.accounts[a].disabled else false)))
  {
    hide Valid, Of, NamesOf, TagsOf, AccountKey, SetEQPassword, AddEQAccount, Trim;
    TrimOfTrimmed(row.username);
    KeyNotBlank(row.username);
    var a := AccountFor(t, row.username);
    match FindAccount(t, row.username)
    case None =>
      AddAccountStep(t, row.username, row.password);
      BareRow(t, a);
    case Some(id) =>
      FoundAccount(t, row.username);
      assert t.accounts.Keys + {id} == t.accounts.Keys;
      if Trim(row.password) != "" {
        SetPasswordStep(t, id, row.password);
      }
  }

  lemma OpenStep(t: Tables, dir: map<string, nat>, row: AccountRow)
    requires Valid(t) && DirectoryOf(dir, t) && !row.restricted
    requires row.username != "" && IsTrimmed(row.username) && OpenUsable(t, row)
    ensures var (t1, id) := PlaceOpen(t, dir, row.username, row);
      var a := AccountFor(t, row.username);
      var before := RowOf(t, a);
      && id == Some(a)
      && OneRow(t, t1, a, AccountKey(row.username))
      && RowOf(t1, a) == Row(Some(OpenAccount(t, row)), Elems(CleanRoles(row.roles)), Elems(CleanIds(Lookup(dir, row.userIds))),
                             before.shares, {}, before.aliases, before.characters, before.tags)
  {
    hide Valid, RowOf, OneRow, AccountKey, SetEQDisabled, PlaceNamed, ReplaceAccountRoles, ReplaceAccountUsers, ReplaceAccountGroups, CleanIds, CleanRoles, Accepted, Trim, Elems, OpenAccount, AccountFor, Lookup;
    NamedStep(t, row);
    var a, key := AccountFor(t, row.username), AccountKey(row.username);
    var t1 := PlaceNamed(t, row.username, row).0;
    OneRowFacts(t, t1, a, key);
    AccountInRow(t1, a);
    SetDisabledStep(t1, a, row.disabled);
    OpenAccountDisabled(t, row);
    var t2 := SetEQDisabled(t1, a, row.disabled);
    OneRowThen(t, t1, t2, a, key);
    RolesStep(t2, a, row.roles);
    var t3 := ReplaceAccountRoles(t2, a, row.roles).0;
    OneRowThen(t, t2, t3, a, key);
    LookupAccepted(t, t3, dir, row.userIds);
    UsersStep(t3, a, Lookup(dir, row.userIds));
    var t4 := ReplaceAccountUsers(t3, a, Lookup(dir, row.userIds)).0;
    OneRowThen(t, t3, t4, a, key);
    GroupsStep(t4, a, []);
    NoIds(t4.groups.Keys);
    OneRowThen(t, t4, ReplaceAccountGroups(t4, a, []).0, a, key);
  }

  lemma OpenAccountDisabled(t: Tables, row: AccountRow)
    ensures OpenAccount(t, row).disabled == row.disabled
  {
  }

  lemma LookupAccepted(t: Tables, t': Tables, dir: map<string, nat>, ids: seq<string>)
    requires DirectoryOf(dir, t) && t'.users == t.users
    ensures Elems(CleanIds(Lookup(dir, ids))) <= t'.users.Keys
  {
    LookupKnown(t, dir, ids);
    PositiveIds(Lookup(dir, ids));
  }

  lemma ShareRowStep(t: Tables, dir: map<string, nat>, row: AccountRow)
    requires Valid(t) && DirectoryOf(dir, t) && RowUsable(t, dir, row) && row.restricted && Live(t, dir, row)
    ensures var (t1, id) := PlaceShare(t, dir, row.username, row);
      var a := AccountFor(t, row.username);
      && id == Some(a)
      && OneRow(t, t1, a, AccountKey(row.username))
      && RowOf(t1, a) == (RowAfter(t, dir, row).(aliases := RowOf(t1, a).aliases, characters := RowOf(t, a).characters, tags := RowOf(t, a).tags))
      && OnlyAdded(t.aliases, t1.aliases, a, row.username)
  {
    hide Valid, RowOf, AccountKey, Trim, Elems, CleanRoles, Recipients, Lookup, Sharable, NamesUsable, OwnName, FindAccount;
    var owner := dir[row.ownerId];
    TrimOfTrimmed(row.username);
    TrimOfTrimmed(row.ownerId);
    ShareSucceeds(t, owner, row.username, row.password, row.aliases, Lookup(dir, row.sharedIds), row.roles, []);
    NoGroups();
    ShareStep(t, owner, row.username, row.password, row.aliases, Lookup(dir, row.sharedIds), row.roles, []);
    ShareTouches(t, owner, row.username, row.password, row.aliases, Lookup(dir, row.sharedIds), row.roles, []);
    PasswordGiven(t, owner, row);
  }

  /** The row of a share with a revoked recipient, and the account it leaves. */
  lemma HaltedStep(t: Tables, dir: map<string, nat>, row: AccountRow)
    requires Valid(t) && DirectoryOf(dir, t) && RowUsable(t, dir, row) && row.restricted && !Live(t, dir, row)
    ensures var (t1, id) := PlaceShare(t, dir, row.username, row);
      var a := AccountFor(t, row.username);
      id == None && OneRow(t, t1, a, AccountKey(row.username)) && RowOf(t1, a) == RowAfter(t, dir, row)
  {
    hide Valid, RowOf, AccountKey, Trim, Elems, CleanRoles, Recipients, Lookup, Sharable, NamesUsable, OwnName, FindAccount, OneRow, Accepted,
         CanShare, IsTrimmed, Merged, SharedAccount, AccountFor;
    var owner, ids := dir[row.ownerId], Lookup(dir, row.sharedIds);
    TrimOfTrimmed(row.username);
    TrimOfTrimmed(row.ownerId);
    PasswordGiven(t, owner, row);
    ShareSucceeds(t, owner, row.username, row.password, row.aliases, ids, row.roles, []);
    RefusedShareStep(t, owner, row.username, row.password, row.aliases, ids, row.roles, []);
    HaltedAliases(t, owner, row, ids);
  }

  /** The aliases a refused share leaves. */
  lemma HaltedAliases(t: Tables, owner: nat, row: AccountRow, users: seq<int>)
    requires Valid(t) && owner in t.users && NamesUsable(t, row) && row.username != "" && IsTrimmed(row.username)
    requires CanShare(t, owner, row.username, row.password) && !(Elems(Recipients(owner, users)) <= Sharable(t))
    ensures var t' := ShareLocalAccount(t, owner, row.username, row.password, row.aliases, users, row.roles, []).0;
      var a := AccountFor(t, row.username);
      RowOf(t', a).aliases == Merged(RowOf(t, a).aliases, Elems(row.aliases))
  {
    hide Valid, Elems, CleanIds, CleanRoles, Accepted, Sharable, ShareTarget, AddAliases, SharesBefore, CanShare, OneRow, AccountFor,
         ReplaceAccountShares, ReplaceAccountRoles, ReplaceAccountGroups, WithoutOwner, NewRecipients, AccountKey, Of, NamesOf, TagsOf, Merged,
         TextsGood, NoneIs, FreeFor, NamesFiled;
    TrimOfTrimmed(row.username);
    ShareTargetStep(t, owner, row.username, row.password);
    TargetIs(t, owner, row.username, row.password);
    var (t1, target) := ShareTarget(t, owner, row.username, row.password);
    var a := AccountFor(t, row.username);
    AliasesFiled(t1);
    SharedAliasesAll(t1, row.username, row.aliases, a);
    AddAliasesStep(t1, row.username, row.aliases, a);
    var t2 := AddAliases(t1, row.username, row.aliases, a);
    SameSharable(t, t2);
    SharesStep(t2, a, Recipients(owner, users));
    SharesAlone(t2, a, Recipients(owner, users));
    CleanIdsTwice(WithoutOwner(owner, users));
  }

  lemma AliasesFiled(t: Tables)
    requires Valid(t)
    ensures NamesFiled(t.aliases)
  {
  }

  lemma PasswordGiven(t: Tables, owner: nat, row: AccountRow)
    requires CanShare(t, owner, row.username, row.password)
    ensures !(FindAccount(t, row.username).None? && row.password == "")
  {
  }

  lemma NoGroups()
    ensures CleanIds([]) == [] && Elems(CleanIds([])) == {}
  {
  }

  /** One revoked recipient and the row of a restricted account is given up halfway: its tags
      and characters are not looked at. */
  lemma RevokedRecipientStopsRow(t: Tables, dir: map<string, nat>, row: AccountRow, u: nat)
    requires Valid(t) && DirectoryOf(dir, t) && row.restricted && row.username != "" && IsTrimmed(row.username)
    requires row.ownerId in dir && row.ownerId != "" && IsTrimmed(row.ownerId)
    requires u in Recipients(dir[row.ownerId], Lookup(dir, row.sharedIds)) && u in t.users && t.users[u].revoked
    ensures ImportAccount(t, dir, row) == PlaceShare(t, dir, row.username, row).0
  {
    hide Valid, ShareLocalAccount, Trim, Recipients, Lookup, FindAccount, IsTrimmed, CanShare;
    TrimOfTrimmed(row.username);
    TrimOfTrimmed(row.ownerId);
    assert u in Elems(Recipients(dir[row.ownerId], Lookup(dir, row.sharedIds)));
    ShareSucceeds(t, dir[row.ownerId], row.username, row.password, row.aliases, Lookup(dir, row.sharedIds), row.roles, []);
  }

  /** Which account it was, and that its aliases only grew. */
  lemma ShareTouches(t: Tables, owner: nat, username: string, password: string, aliases: seq<string>,
                     users: seq<int>, roles: seq<string>, groups: seq<int>)
    requires Valid(t) && owner in t.users && Trim(username) == username && username != ""
    requires ShareLocalAccount(t, owner, username, password, aliases, users, roles, groups).1.Ok?
    ensures var (t', result) := ShareLocalAccount(t, owner, username, password, aliases, users, roles, groups);
      && result.value.account == AccountFor(t, username)
      && OnlyAdded(t.aliases, t'.aliases, AccountFor(t, username), username)
  {
    hide Valid, RowOf, Elems, CleanIds, CleanRoles, Accepted, Sharable, AddAliases, ShareTarget,
         ReplaceAccountShares, ReplaceAccountRoles, ReplaceAccountGroups, WithoutOwner, NewRecipients, AccountKey, OnlyAdded;
    ShareTargetStep(t, owner, username, password);
    TargetIs(t, owner, username, password);
    var (t1, target) := ShareTarget(t, owner, username, password);
    var id := target.value;
    SharedAliases(t1, username, aliases, id);
    var t2 := AddAliases(t1, username, aliases, id);
    GrantsKeepAliases(t2, id, Recipients(owner, users), CleanRoles(roles), CleanIds(groups));
  }

  lemma GrantsKeepAliases(t: Tables, a: nat, users: seq<int>, roles: seq<string>, groups: seq<int>)
    ensures ReplaceAccountGroups(ReplaceAccountRoles(ReplaceAccountShares(t, a, users).0, a, roles).0, a, groups).0.aliases == t.aliases
  {
    hide ReplaceAccountShares, ReplaceAccountRoles, ReplaceAccountGroups;
    var t1 := ReplaceAccountShares(t, a, users).0;
    SharesAlone(t, a, users);
    RolesAlone(t1, a, roles);
    GroupsAlone(ReplaceAccountRoles(t1, a, roles).0, a, groups);
  }

  /** Whatever is free for a stays so while only account a's names change. */
  lemma FreeAfter(texts: seq<string>, names: map<string, Named>, names': map<string, Named>, a: nat)
    requires FreeFor(texts, names, a) && NamesFiled(names) && NamesFiled(names')
    requires forall b: nat :: b != a ==> NamesOf(names', b) == NamesOf(names, b)
    ensures FreeFor(texts, names', a)
  {
    forall i | 0 <= i < |texts| && Lower(texts[i]) in names'
      ensures names'[Lower(texts[i])].account == a
    {
      var held := names'[Lower(texts[i])];
      if held.account != a {
        InNamesOf(names', held.account, held.text);
        InNamesOf(names, held.account, held.text);
        assert false;
      }
    }
  }

  lemma RowsFree(t: Tables, t1: Tables, a: nat, key: string, aliases: seq<string>, characters: seq<string>)
    requires Valid(t) && OneRow(t, t1, a, key)
    requires FreeFor(aliases, t.aliases, a) && FreeFor(characters, t.characters, a)
    ensures FreeFor(aliases, t1.aliases, a) && FreeFor(characters, t1.characters, a)
  {
    hide NamesOf, NamesFiled, FreeFor, TagsFiled, UsersIndexed, AccountsIndexed, OwnersIn, GroupsNumbered, KeysIn, ValuesIn, Of, TagsOf;
    forall b: nat | b != a
      ensures NamesOf(t1.aliases, b) == NamesOf(t.aliases, b) && NamesOf(t1.characters, b) == NamesOf(t.characters, b)
    {
      assert RowOf(t1, b) == RowOf(t, b);
    }
    FreeAfter(aliases, t.aliases, t1.aliases, a);
    FreeAfter(characters, t.characters, t1.characters, a);
  }

  function Placed(t: Tables, dir: map<string, nat>, row: AccountRow): (Tables, Option<nat>) {
    if row.restricted then PlaceShare(t, dir, row.username, row) else PlaceOpen(t, dir, row.username, row)
  }

  /** After the account is placed its row is final but for names, and its names still fit. */
  lemma PlacedStep(t: Tables, dir: map<string, nat>, row: AccountRow)
    requires Valid(t) && DirectoryOf(dir, t) && RowUsable(t, dir, row) && Live(t, dir, row)
    ensures var (t1, id) := Placed(t, dir, row);
      var a := AccountFor(t, row.username);
      && id == Some(a) && OneRow(t, t1, a, AccountKey(row.username))
      && RowAfter(t, dir, row) == RowOf(t1, a).(aliases := OwnName(RowOf(t1, a).aliases, row.username) + Elems(row.aliases),
                                                 characters := Elems(row.characters), tags := Elems(row.tags))
      && FreeFor(row.aliases, t1.aliases, a) && FreeFor(row.characters, t1.characters, a)
  {
    hide Valid, RowOf, OneRow, AccountKey, AccountFor, PlaceShare, PlaceOpen, OwnName, Elems, CleanRoles, CleanIds, Lookup, Recipients,
         OpenAccount, SharedAccount, FreeFor, OnlyAdded, TextsGood, NoneIs, CanShare, Trim, IsTrimmed;
    var a, key := AccountFor(t, row.username), AccountKey(row.username);
    var t1 := Placed(t, dir, row).0;
    if row.restricted {
      ShareRowStep(t, dir, row);
      OwnAfterShare(t, t1, a, key, row.username, row.aliases);
    } else {
      OpenStep(t, dir, row);
    }
    RowsFree(t, t1, a, key, row.aliases, row.characters);
  }

  lemma OwnAfterShare(t: Tables, t1: Tables, a: nat, key: string, username: string, aliases: seq<string>)
    requires Valid(t) && OneRow(t, t1, a, key) && OnlyAdded(t.aliases, t1.aliases, a, username) && FreeFor(aliases, t.aliases, a)
    ensures OwnName(RowOf(t1, a).aliases, username) == OwnName(RowOf(t, a).aliases, username)
  {
    hide NamesOf, NamesFiled, FreeFor, OnlyAdded, OwnName, TagsFiled, UsersIndexed, AccountsIndexed, OwnersIn, GroupsNumbered, KeysIn, ValuesIn, Of, TagsOf;
    SharedAliasesFree(t.aliases, t1.aliases, a, username, aliases);
  }

  /** A usable row leaves exactly the account it describes, and nothing else changes. */
  lemma ImportAccountStep(t: Tables, dir: map<string, nat>, row: AccountRow)
    requires Valid(t) && DirectoryOf(dir, t) && RowUsable(t, dir, row)
    ensures var t', a := ImportAccount(t, dir, row), AccountFor(t, row.username);
      OneRow(t, t', a, AccountKey(row.username)) && RowOf(t', a) == RowAfter(t, dir, row)
  {
    hide Valid, RowOf, OneRow, AccountKey, AccountFor, PlaceShare, PlaceOpen, RowAfter, OnlyAdded, ShareUsable, OpenUsable,
         ReplaceAliases, ReplaceTags, ReplaceCharacters, OwnName, Elems, TextsGood, FreeFor, NoneIs, Trim, IsTrimmed;
    TrimOfTrimmed(row.username);
    if !Live(t, dir, row) {
      HaltedStep(t, dir, row);
      return;
    }
    var a, key := AccountFor(t, row.username), AccountKey(row.username);
    var t1 := Placed(t, dir, row).0;
    PlacedStep(t, dir, row);
    OneRowFacts(t, t1, a, key);
    ReplaceAliasesStep(t1, a, row.username, row.aliases);
    var t2 := ReplaceAliases(t1, a, row.username, row.aliases);
    OneRowThen(t, t1, t2, a, key);
    ReplaceTagsStep(t2, a, row.tags);
    var t3 := ReplaceTags(t2, a, row.tags);
    OneRowThen(t, t2, t3, a, key);
    AliasesTagsAside(t1, a, row.username, row.aliases, row.tags);
    ReplaceCharactersStep(t3, a, row.characters);
    OneRowThen(t, t3, ReplaceCharacters(t3, a, row.characters), a, key);
  }

  lemma AliasesTagsAside(t: Tables, a: nat, username: string, aliases: seq<string>, tags: seq<string>)
    ensures ReplaceTags(ReplaceAliases(t, a, username, aliases), a, tags).characters == t.characters
  {
  }
}
