// The tables of the account store. A table with a unique index is a map from the indexed
// columns; a link table is a set of pairs. Serial ids start at 1 and are never reused.
module Tables {
  import opened Text
  import opened Wrappers

  datatype User = User(discordId: string, displayName: string, roles: seq<string>, revoked: bool)

  datatype Account = Account(username: string, password: string, disabled: bool, restricted: bool, owner: Option<nat>)

  datatype Group = Group(name: string, description: string, webRole: string, commands: set<string>)

  /** An alias or character row; its key is the folded text. */
  datatype Named = Named(text: string, account: nat)

  datatype Tables = Tables(
    users: map<nat, User>,
    userIds: map<string, nat>,          // unique index on the Discord id
    accounts: map<nat, Account>,
    accountIds: map<string, nat>,       // unique blind index on the folded, trimmed username
    groups: map<nat, Group>,
    aliases: map<string, Named>,        // unique index on the folded alias
    characters: map<string, Named>,     // unique index on the folded name
    tags: map<(string, nat), string>,   // unique index on folded tag and account
    accessRoles: set<(nat, string)>,    // account, Discord role
    accessUsers: set<(nat, nat)>,       // account, user
    shares: set<(nat, nat)>,            // account, user
    links: set<(nat, nat)>,             // account, group
    memberUsers: set<(nat, nat)>,       // group, user
    memberRoles: set<(nat, string)>,    // group, Discord role
    nextUser: nat,
    nextAccount: nat,
    nextGroup: nat
  )

  const EMPTY := Tables(map[], map[], map[], map[], map[], map[], map[], map[], {}, {}, {}, {}, {}, {}, 1, 1, 1)

  /** The blind-index key of a username. */
  function AccountKey(username: string): string {
    Lower(Trim(username))
  }

  // ----- Link tables -----

  /** The values linked to a key. */
  function Of<V>(rows: set<(nat, V)>, key: nat): set<V> {
    set p | p in rows && p.0 == key :: p.1
  }

  /** The keys linked to a value. */
  function Having(rows: set<(nat, nat)>, value: nat): set<nat> {
    set p | p in rows && p.1 == value :: p.0
  }

  /** Delete a key's rows and insert new ones. */
  function Put<V>(rows: set<(nat, V)>, key: nat, values: set<V>): set<(nat, V)> {
    (set p | p in rows && p.0 != key) + (set v | v in values :: (key, v))
  }

  /** Delete a value's rows and insert new ones. */
  function PutFor(rows: set<(nat, nat)>, value: nat, keys: set<nat>): set<(nat, nat)> {
    (set p | p in rows && p.1 != value) + (set k | k in keys :: (k, value))
  }

  lemma InOf<V>(rows: set<(nat, V)>, key: nat, v: V)
    ensures v in Of(rows, key) <==> (key, v) in rows
  {
    if v in Of(rows, key) {
      var p :| p in rows && p.0 == key && p.1 == v;
      assert p == (key, v);
    }
    if (key, v) in rows {
      var p := (key, v);
      assert p in rows && p.0 == key && p.1 == v;
    }
  }

  lemma InHaving(rows: set<(nat, nat)>, value: nat, k: nat)
    ensures k in Having(rows, value) <==> (k, value) in rows
  {
    if k in Having(rows, value) {
      var p :| p in rows && p.1 == value && p.0 == k;
      assert p == (k, value);
    }
    if (k, value) in rows {
      var p := (k, value);
      assert p in rows && p.1 == value && p.0 == k;
    }
  }

  lemma InPut<V>(rows: set<(nat, V)>, key: nat, values: set<V>, k: nat, v: V)
    ensures (k, v) in Put(rows, key, values) <==> if k == key then v in values else (k, v) in rows
  {
  }

  lemma InPutFor(rows: set<(nat, nat)>, value: nat, keys: set<nat>, k: nat, v: nat)
    ensures (k, v) in PutFor(rows, value, keys) <==> if v == value then k in keys else (k, v) in rows
  {
  }

  lemma OfPut<V>(rows: set<(nat, V)>, key: nat, values: set<V>, k: nat)
    ensures Of(Put(rows, key, values), k) == if k == key then values else Of(rows, k)
  {
    var left, right := Of(Put(rows, key, values), k), if k == key then values else Of(rows, k);
    forall v: V
      ensures v in left <==> v in right
    {
      InOf(Put(rows, key, values), k, v);
      InOf(rows, k, v);
      InPut(rows, key, values, k, v);
    }
    assert left == right;
  }

  lemma HavingPutFor(rows: set<(nat, nat)>, value: nat, keys: set<nat>, v: nat)
    ensures Having(PutFor(rows, value, keys), v) == if v == value then keys else Having(rows, v)
  {
    hide Having, PutFor;
    forall k: nat
      ensures k in Having(PutFor(rows, value, keys), v) <==> k in if v == value then keys else Having(rows, v)
    {
      InHaving(PutFor(rows, value, keys), v, k);
      InHaving(rows, v, k);
      InPutFor(rows, value, keys, k, v);
    }
  }

  lemma PutSame<V>(rows: set<(nat, V)>, key: nat)
    ensures Put(rows, key, Of(rows, key)) == rows
  {
    var left := Put(rows, key, Of(rows, key));
    forall p: (nat, V)
      ensures p in left <==> p in rows
    {
      InPut(rows, key, Of(rows, key), p.0, p.1);
      InOf(rows, p.0, p.1);
      assert p == (p.0, p.1);
    }
    assert left == rows;
  }

  // ----- Names -----

  /** An account's aliases or characters, as written. */
  function NamesOf(names: map<string, Named>, account: nat): set<string> {
    set k | k in names && names[k].account == account :: names[k].text
  }

  function TagsOf(tags: map<(string, nat), string>, account: nat): set<string> {
    set k | k in tags && k.1 == account :: tags[k]
  }

  /** Stored names are trimmed, nonempty, and filed under their folded text. */
  ghost predicate NamesFiled(names: map<string, Named>) {
    forall k :: k in names ==> k == Lower(names[k].text) && IsTrimmed(names[k].text) && names[k].text != ""
  }

  ghost predicate TagsFiled(tags: map<(string, nat), string>) {
    forall k :: k in tags ==> k.0 == Lower(tags[k]) && IsTrimmed(tags[k]) && tags[k] != ""
  }

  lemma InNamesOf(names: map<string, Named>, account: nat, text: string)
    requires NamesFiled(names)
    ensures text in NamesOf(names, account)
       <==> Lower(text) in names && names[Lower(text)] == Named(text, account)
  {
  }

  lemma InTagsOf(tags: map<(string, nat), string>, account: nat, text: string)
    requires TagsFiled(tags)
    ensures text in TagsOf(tags, account) <==> (Lower(text), account) in tags && tags[(Lower(text), account)] == text
  {
    if text in TagsOf(tags, account) {
      var k :| k in tags && k.1 == account && tags[k] == text;
      assert k == (Lower(text), account);
    }
  }

  /** Some name of the account is this one, ignoring case. */
  lemma HasName(names: map<string, Named>, name: string, a: nat)
    requires NamesFiled(names)
    ensures (exists x :: x in NamesOf(names, a) && EqualFold(x, name)) <==> Lower(name) in names && names[Lower(name)].account == a
    ensures forall k :: k in names && EqualFold(names[k].text, name) <==> k in names && k == Lower(name)
  {
    hide Lower;
    if Lower(name) in names && names[Lower(name)].account == a {
      assert names[Lower(name)].text in NamesOf(names, a);
    }
  }

  lemma HasTag(tags: map<(string, nat), string>, tag: string, a: nat)
    requires TagsFiled(tags)
    ensures (exists x :: x in TagsOf(tags, a) && EqualFold(x, tag)) <==> (Lower(tag), a) in tags
  {
    hide Lower;
    if (Lower(tag), a) in tags {
      assert tags[(Lower(tag), a)] in TagsOf(tags, a);
    }
    if x :| x in TagsOf(tags, a) && EqualFold(x, tag) {
      var k :| k in tags && k.1 == a && tags[k] == x;
      assert k == (Lower(tag), a);
    }
  }

  // ----- One account's share of the tables -----

  /** Everything the tables hold about one account. */
  datatype Row = Row(
    account: Option<Account>,
    roles: set<string>,
    users: set<nat>,
    shares: set<nat>,
    groups: set<nat>,
    aliases: set<string>,
    characters: set<string>,
    tags: set<string>
  )

  function RowOf(t: Tables, a: nat): Row {
    Row(if a in t.accounts then Some(t.accounts[a]) else None,
        Of(t.accessRoles, a), Of(t.accessUsers, a), Of(t.shares, a), Of(t.links, a),
        NamesOf(t.aliases, a), NamesOf(t.characters, a), TagsOf(t.tags, a))
  }

  /** Everything else: users, groups and their members. */
  datatype World = World(
    users: map<nat, User>,
    userIds: map<string, nat>,
    groups: map<nat, Group>,
    memberUsers: set<(nat, nat)>,
    memberRoles: set<(nat, string)>,
    nextUser: nat,
    nextGroup: nat
  )

  function WorldOf(t: Tables): World {
    World(t.users, t.userIds, t.groups, t.memberUsers, t.memberRoles, t.nextUser, t.nextGroup)
  }

  /** Only account a's row differs between t and t', and there it is `row`. */
  ghost predicate Changes(t: Tables, t': Tables, a: nat, row: Row) {
    && WorldOf(t') == WorldOf(t)
    && t'.accountIds == t.accountIds && t'.nextAccount == t.nextAccount && t'.accounts.Keys == t.accounts.Keys
    && RowOf(t', a) == row
    && forall b: nat :: b != a ==> RowOf(t', b) == RowOf(t, b)
  }

  // ----- Integrity, table by table -----

  ghost predicate UsersIndexed(users: map<nat, User>, userIds: map<string, nat>, nextUser: nat) {
    && (forall d :: d in userIds ==> userIds[d] in users && users[userIds[d]].discordId == d)
    && (forall u :: u in users ==> users[u].discordId in userIds && userIds[users[u].discordId] == u)
    && (forall u :: u in users ==> 0 < u < nextUser)
    && 0 < nextUser
  }

  ghost predicate AccountsIndexed(accounts: map<nat, Account>, accountIds: map<string, nat>, nextAccount: nat) {
    && (forall k :: k in accountIds ==> accountIds[k] in accounts && AccountKey(accounts[accountIds[k]].username) == k)
    && (forall a :: a in accounts ==>
          AccountKey(accounts[a].username) in accountIds && accountIds[AccountKey(accounts[a].username)] == a)
    && (forall a :: a in accounts ==> 0 < a < nextAccount)
    && 0 < nextAccount
  }

  ghost predicate OwnersIn(accounts: map<nat, Account>, users: set<nat>) {
    forall a :: a in accounts && accounts[a].owner.Some? ==> accounts[a].owner.value in users
  }

  ghost predicate GroupsNumbered(groups: map<nat, Group>, nextGroup: nat) {
    (forall g :: g in groups ==> 0 < g < nextGroup) && 0 < nextGroup
  }

  ghost predicate NamesRefer(names: map<string, Named>, accounts: set<nat>) {
    forall k :: k in names ==> names[k].account in accounts
  }

  ghost predicate TagsRefer(tags: map<(string, nat), string>, accounts: set<nat>) {
    forall k :: k in tags ==> k.1 in accounts
  }

  ghost predicate KeysIn<V>(rows: set<(nat, V)>, keys: set<nat>) {
    forall p :: p in rows ==> p.0 in keys
  }

  ghost predicate ValuesIn(rows: set<(nat, nat)>, values: set<nat>) {
    forall p :: p in rows ==> p.1 in values
  }

  /** The indexes and foreign keys hold. */
  ghost predicate Valid(t: Tables) {
    && UsersIndexed(t.users, t.userIds, t.nextUser)
    && AccountsIndexed(t.accounts, t.accountIds, t.nextAccount)
    && OwnersIn(t.accounts, t.users.Keys)
    && GroupsNumbered(t.groups, t.nextGroup)
    && NamesFiled(t.aliases) && NamesRefer(t.aliases, t.accounts.Keys)
    && NamesFiled(t.characters) && NamesRefer(t.characters, t.accounts.Keys)
    && TagsFiled(t.tags) && TagsRefer(t.tags, t.accounts.Keys)
    && KeysIn(t.accessRoles, t.accounts.Keys)
    && KeysIn(t.accessUsers, t.accounts.Keys) && ValuesIn(t.accessUsers, t.users.Keys)
    && KeysIn(t.shares, t.accounts.Keys) && ValuesIn(t.shares, t.users.Keys)
    && KeysIn(t.links, t.accounts.Keys) && ValuesIn(t.links, t.groups.Keys)
    && KeysIn(t.memberUsers, t.groups.Keys) && ValuesIn(t.memberUsers, t.users.Keys)
    && KeysIn(t.memberRoles, t.groups.Keys)
  }

  lemma PutKeys<V>(rows: set<(nat, V)>, key: nat, values: set<V>, keys: set<nat>)
    requires KeysIn(rows, keys) && key in keys
    ensures KeysIn(Put(rows, key, values), keys)
  {
  }

  lemma PutValues(rows: set<(nat, nat)>, key: nat, values: set<nat>, allowed: set<nat>)
    requires ValuesIn(rows, allowed) && values <= allowed
    ensures ValuesIn(Put(rows, key, values), allowed)
  {
  }

  lemma BareRow(t: Tables, a: nat)
    requires Valid(t) && a !in t.accounts
    ensures RowOf(t, a) == Row(None, {}, {}, {}, {}, {}, {}, {})
  {
    hide UsersIndexed, AccountsIndexed, OwnersIn, GroupsNumbered, NamesFiled, TagsFiled, ValuesIn;
    NoRows(t.accessRoles, a, t.accounts.Keys);
    NoRows(t.accessUsers, a, t.accounts.Keys);
    NoRows(t.shares, a, t.accounts.Keys);
    NoRows(t.links, a, t.accounts.Keys);
    assert NamesOf(t.aliases, a) == {};
    assert NamesOf(t.characters, a) == {};
    assert TagsOf(t.tags, a) == {};
  }

  lemma NoRows<V>(rows: set<(nat, V)>, a: nat, keys: set<nat>)
    requires KeysIn(rows, keys) && a !in keys
    ensures Of(rows, a) == {}
  {
  }
}
