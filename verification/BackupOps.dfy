// Configuration backups: rows keyed by Discord id, username and group name, and what importing
// them does to the tables. A row that cannot be used is skipped; what it did before stays.
module BackupOps {
  import opened StoreOps
  import opened Tables
  import opened Text
  import opened Wrappers

  datatype UserRow = UserRow(discordId: string, displayName: string, roles: seq<string>, revoked: bool)

  datatype GroupRow = GroupRow(
    name: string,
    description: string,
    webRole: string,
    commands: seq<string>,
    memberIds: seq<string>,
    memberRoles: seq<string>,
    usernames: seq<string>
  )

  datatype AccountRow = AccountRow(
    username: string,
    password: string,
    disabled: bool,
    restricted: bool,
    ownerId: string,
    sharedIds: seq<string>,
    roles: seq<string>,
    userIds: seq<string>,
    groupNames: seq<string>,
    aliases: seq<string>,
    tags: seq<string>,
    characters: seq<string>
  )

  datatype Backup = Backup(users: seq<UserRow>, groups: seq<GroupRow>, accounts: seq<AccountRow>)

  // ----- Users -----

  function ImportUser(t: Tables, row: UserRow): Tables {
    var id := Trim(row.discordId);
    if id == "" then t
    else
      var (t1, u) := UpsertUser(t, id, row.displayName, row.roles);
      SetUserAccessRevoked(SetUserRoles(t1, u, row.roles), u, row.revoked).0
  }

  function ImportUsers(t: Tables, rows: seq<UserRow>): Tables {
    if rows == [] then t else ImportUser(ImportUsers(t, rows[..|rows| - 1]), rows[|rows| - 1])
  }

  /** The users later rows can name: all but one without a Discord id. */
  function Directory(t: Tables): map<string, nat> {
    t.userIds - {""}
  }

  /** The users of a list of Discord ids; unknown ones are left out. */
  function Lookup(dir: map<string, nat>, ids: seq<string>): seq<nat> {
    if ids == [] then []
    else
      var before, id := Lookup(dir, ids[..|ids| - 1]), Trim(ids[|ids| - 1]);
      if id in dir then before + [dir[id]] else before
  }

  // ----- Accounts -----

  /** Add names in order up to the first conflict; aliases skip blanks and the username. */
  function AddNames(names: map<string, Named>, texts: seq<string>, account: nat, known: bool, username: Option<string>)
    : (map<string, Named>, bool)
  {
    if texts == [] then (names, true)
    else
      var (before, ok) := AddNames(names, texts[..|texts| - 1], account, known, username);
      var text := Trim(texts[|texts| - 1]);
      if !ok then (before, false)
      else if username.Some? && (text == "" || EqualFold(text, username.value)) then (before, true)
      else AddName(before, text, account, known)
  }

  function AddTags(tags: map<(string, nat), string>, texts: seq<string>, account: nat, known: bool)
    : (map<(string, nat), string>, bool)
  {
    if texts == [] then (tags, true)
    else
      var (before, ok) := AddTags(tags, texts[..|texts| - 1], account, known);
      if !ok then (before, false) else AddTagTo(before, texts[|texts| - 1], account, known)
  }

  /** All aliases of the account are removed but the one that is its username. */
  function AliasesKept(names: map<string, Named>, account: nat, username: string): map<string, Named> {
    map k | k in names && (names[k].account != account || EqualFold(names[k].text, username)) :: names[k]
  }

  function ReplaceAliases(t: Tables, account: nat, username: string, aliases: seq<string>): Tables {
    var kept := if account in t.accounts then AliasesKept(t.aliases, account, username) else t.aliases;
    t.(aliases := AddNames(kept, aliases, account, account in t.accounts, Some(username)).0)
  }

  function ReplaceTags(t: Tables, account: nat, tags: seq<string>): Tables {
    var kept := if account in t.accounts then TagsNotOf(t.tags, account) else t.tags;
    t.(tags := AddTags(kept, tags, account, account in t.accounts).0)
  }

  function ReplaceCharacters(t: Tables, account: nat, characters: seq<string>): Tables {
    var kept := if account in t.accounts then NamesNotOf(t.characters, account) else t.characters;
    t.(characters := AddNames(kept, characters, account, account in t.accounts, None).0)
  }

  /** The account of a restricted row, shared again by its owner. */
  function PlaceShare(t: Tables, dir: map<string, nat>, username: string, row: AccountRow): (Tables, Option<nat>) {
    var ownerId := Trim(row.ownerId);
    if ownerId !in dir || ownerId == "" then (t, None)
    else if FindAccount(t, username).None? && row.password == "" then (t, None)
    else
      match ShareLocalAccount(t, dir[ownerId], username, row.password, row.aliases, Lookup(dir, row.sharedIds), row.roles, [])
      case (t', Err(_)) => (t', None)
      case (t', Ok(shared)) => (t', Some(shared.account))
  }

  /** The account of an open row, found or created, with its password. */
  function PlaceNamed(t: Tables, username: string, row: AccountRow): (Tables, Option<nat>) {
    match FindAccount(t, username)
    case None => if Trim(row.password) == "" then (t, None) else AddEQAccount(t, username, row.password)
    case Some(id) => (if Trim(row.password) != "" then SetEQPassword(t, id, row.password) else t, Some(id))
  }

  /** Group links are cleared here and applied once the groups exist. */
  function PlaceOpen(t: Tables, dir: map<string, nat>, username: string, row: AccountRow): (Tables, Option<nat>) {
    match PlaceNamed(t, username, row)
    case (t1, None) => (t1, None)
    case (t1, Some(id)) =>
      (SetAccountAccess(SetEQDisabled(t1, id, row.disabled), id, row.roles, Lookup(dir, row.userIds), []).0, Some(id))
  }

  function ImportAccount(t: Tables, dir: map<string, nat>, row: AccountRow): Tables {
    var username := Trim(row.username);
    if username == "" then t
    else
      match (if row.restricted then PlaceShare(t, dir, username, row) else PlaceOpen(t, dir, username, row))
      case (t1, None) => t1
      case (t1, Some(id)) =>
        ReplaceCharacters(ReplaceTags(ReplaceAliases(t1, id, username, row.aliases), id, row.tags), id, row.characters)
  }

  function ImportAccounts(t: Tables, dir: map<string, nat>, rows: seq<AccountRow>): Tables {
    if rows == [] then t else ImportAccount(ImportAccounts(t, dir, rows[..|rows| - 1]), dir, rows[|rows| - 1])
  }

  // ----- Groups -----

  function LookupAccounts(t: Tables, usernames: seq<string>): seq<nat> {
    if usernames == [] then []
    else
      var before := LookupAccounts(t, usernames[..|usernames| - 1]);
      match FindAccount(t, usernames[|usernames| - 1])
      case None => before
      case Some(id) => before + [id]
  }

  function PlaceGroup(t: Tables, name: string, row: GroupRow): (Tables, Option<nat>) {
    match FindGroup(t, name)
    case None => CreateGroup(t, name, row.description, row.webRole, row.commands)
    case Some(g) =>
      var (t1, ok) := UpdateGroupMeta(t, g, name, row.description, row.webRole, row.commands);
      (t1, if ok then Some(g) else None)
  }

  datatype Grouped = Grouped(tables: Tables, ids: map<string, nat>)

  function ImportGroup(t: Grouped, dir: map<string, nat>, row: GroupRow): Grouped {
    var name := Trim(row.name);
    if name == "" then t
    else
      match PlaceGroup(t.tables, name, row)
      case (t1, None) => t.(tables := t1)
      case (t1, Some(g)) =>
        var t2 := ReplaceGroupMembership(t1, g, Lookup(dir, row.memberIds), row.memberRoles).0;
        var t3 := ReplaceGroupAccountLinks(t2, g, LookupAccounts(t2, row.usernames)).0;
        Grouped(t3, t.ids[Lower(name) := g])
  }

  function ImportGroups(t: Tables, dir: map<string, nat>, rows: seq<GroupRow>): Grouped {
    if rows == [] then Grouped(t, map[]) else ImportGroup(ImportGroups(t, dir, rows[..|rows| - 1]), dir, rows[|rows| - 1])
  }

  // ----- Grants of open accounts, again, now with their groups -----

  function LookupGroups(ids: map<string, nat>, names: seq<string>): seq<nat> {
    if names == [] then []
    else
      var before, key := LookupGroups(ids, names[..|names| - 1]), Lower(Trim(names[|names| - 1]));
      if key in ids then before + [ids[key]] else before
  }

  function ImportGrant(t: Tables, dir: map<string, nat>, ids: map<string, nat>, row: AccountRow): Tables {
    if row.restricted || row.groupNames == [] then t
    else
      match FindAccount(t, row.username)
      case None => t
      case Some(a) => SetAccountAccess(t, a, row.roles, Lookup(dir, row.userIds), LookupGroups(ids, row.groupNames)).0
  }

  function ImportGrants(t: Tables, dir: map<string, nat>, ids: map<string, nat>, rows: seq<AccountRow>): Tables {
    if rows == [] then t else ImportGrant(ImportGrants(t, dir, ids, rows[..|rows| - 1]), dir, ids, rows[|rows| - 1])
  }

  function Import(t: Tables, bak: Backup): Tables {
    var t1 := ImportUsers(t, bak.users);
    var dir := Directory(t1);
    var t2 := ImportAccounts(t1, dir, bak.accounts);
    var grouped := ImportGroups(t2, dir, bak.groups);
    ImportGrants(grouped.tables, dir, grouped.ids, bak.accounts)
  }
}
