// What each store method does to the tables, as a function from tables to tables. Methods
// that are not transactional keep what they did before an error, so the tables they leave
// are part of the answer.
module StoreOps {
  import opened Roles
  import opened Tables
  import opened Text
  import opened Wrappers

  function Elems<T>(xs: seq<T>): set<T> {
    set x | x in xs
  }

  // ----- Input lists -----

  /** Positive ids, each once, in order. */
  function CleanIds(ids: seq<int>): (r: seq<nat>) {
    if ids == [] then []
    else
      var before, id := CleanIds(ids[..|ids| - 1]), ids[|ids| - 1];
      if id <= 0 || id in before then before else before + [id]
  }

  /** The ids before the first one outside `known`: what inserting in order manages. */
  function Accepted(ids: seq<nat>, known: set<nat>): (r: seq<nat>)
    ensures |r| <= |ids| && r == ids[..|r|]
  {
    if ids == [] || ids[0] !in known then [] else [ids[0]] + Accepted(ids[1..], known)
  }

  // ----- Users -----

  function UpsertUser(t: Tables, discordId: string, displayName: string, roles: seq<string>): (Tables, nat) {
    if discordId in t.userIds && t.userIds[discordId] in t.users then
      var id := t.userIds[discordId];
      var u := t.users[id];
      (t.(users := t.users[id := u.(displayName := displayName, roles := if roles == [] then u.roles else roles)]), id)
    else
      (t.(users := t.users[t.nextUser := User(discordId, displayName, roles, false)],
          userIds := t.userIds[discordId := t.nextUser], nextUser := t.nextUser + 1), t.nextUser)
  }

  function SetUserRoles(t: Tables, user: nat, roles: seq<string>): Tables {
    if user in t.users then t.(users := t.users[user := t.users[user].(roles := CleanRoles(roles))]) else t
  }

  function SetUserAccessRevoked(t: Tables, user: nat, revoked: bool): (Tables, bool) {
    if user in t.users then (t.(users := t.users[user := t.users[user].(revoked := revoked)]), true) else (t, false)
  }

  // ----- Accounts -----

  function FindAccount(t: Tables, username: string): Option<nat> {
    var key := AccountKey(username);
    if key != "" && key in t.accountIds then Some(t.accountIds[key]) else None
  }

  /** The blind index refuses a second account of the same name. */
  function AddEQAccount(t: Tables, username: string, password: string): (Tables, Option<nat>) {
    var key := AccountKey(username);
    if key in t.accountIds then (t, None)
    else
      (t.(accounts := t.accounts[t.nextAccount := Account(username, password, false, false, None)],
          accountIds := t.accountIds[key := t.nextAccount], nextAccount := t.nextAccount + 1), Some(t.nextAccount))
  }

  function SetEQPassword(t: Tables, account: nat, password: string): Tables {
    if account in t.accounts then t.(accounts := t.accounts[account := t.accounts[account].(password := password)]) else t
  }

  function SetEQDisabled(t: Tables, account: nat, disabled: bool): Tables {
    if account in t.accounts then t.(accounts := t.accounts[account := t.accounts[account].(disabled := disabled)]) else t
  }

  function MakeRestricted(t: Tables, account: nat, owner: nat): Tables {
    if account in t.accounts
    then t.(accounts := t.accounts[account := t.accounts[account].(restricted := true, owner := Some(owner))]) else t
  }

  // ----- Grants; a row for a missing account, user or group is refused -----

  function ReplaceAccountRoles(t: Tables, account: nat, roles: seq<string>): (Tables, bool) {
    var clean := CleanRoles(roles);
    if account in t.accounts then (t.(accessRoles := Put(t.accessRoles, account, Elems(clean))), true)
    else (t.(accessRoles := Put(t.accessRoles, account, {})), clean == [])
  }

  function ReplaceAccountUsers(t: Tables, account: nat, users: seq<int>): (Tables, bool) {
    var clean := CleanIds(users);
    var done := if account in t.accounts then Accepted(clean, t.users.Keys) else [];
    (t.(accessUsers := Put(t.accessUsers, account, Elems(done))), done == clean)
  }

  function ReplaceAccountGroups(t: Tables, account: nat, groups: seq<int>): (Tables, bool) {
    var clean := CleanIds(groups);
    var done := if account in t.accounts then Accepted(clean, t.groups.Keys) else [];
    (t.(links := Put(t.links, account, Elems(done))), done == clean)
  }

  function SetAccountAccess(t: Tables, account: nat, roles: seq<string>, users: seq<int>, groups: seq<int>): (Tables, bool) {
    var (t1, ok1) := ReplaceAccountRoles(t, account, roles);
    if !ok1 then (t1, false)
    else
      var (t2, ok2) := ReplaceAccountUsers(t1, account, users);
      if !ok2 then (t2, false) else ReplaceAccountGroups(t2, account, groups)
  }

  /** Users that exist and are not revoked. */
  function Sharable(t: Tables): set<nat> {
    NotRevoked(t.users)
  }

  function NotRevoked(users: map<nat, User>): set<nat> {
    set u | u in users && !users[u].revoked
  }

  function ReplaceAccountShares(t: Tables, account: nat, users: seq<int>): (Tables, bool) {
    var clean := CleanIds(users);
    var done := if account in t.accounts then Accepted(clean, Sharable(t)) else [];
    (t.(shares := Put(t.shares, account, Elems(done))), done == clean)
  }

  // ----- Names -----

  /** Adding a name that its own account already has, in any case, changes nothing. */
  function AddName(names: map<string, Named>, text: string, account: nat, known: bool): (map<string, Named>, bool) {
    var name := Trim(text);
    var key := Lower(name);
    if name == "" then (names, false)
    else if key in names then (names, names[key].account == account)
    else if !known then (names, false)
    else (names[key := Named(name, account)], true)
  }

  function RemoveName(names: map<string, Named>, text: string, account: nat): (map<string, Named>, bool) {
    var key := Lower(Trim(text));
    if key in names && names[key].account == account && key != "" then (names - {key}, true) else (names, false)
  }

  function AddTagTo(tags: map<(string, nat), string>, text: string, account: nat, known: bool): (map<(string, nat), string>, bool) {
    var tag := Trim(text);
    var key := (Lower(tag), account);
    if tag == "" then (tags, false)
    else if key in tags then (tags, true)
    else if !known then (tags, false)
    else (tags[key := tag], true)
  }

  function RemoveTagFrom(tags: map<(string, nat), string>, text: string, account: nat): (map<(string, nat), string>, bool) {
    var key := (Lower(Trim(text)), account);
    if key in tags && key.0 != "" then (tags - {key}, true) else (tags, false)
  }

  function AddAlias(t: Tables, alias: string, account: nat): (Tables, bool) {
    var (names, ok) := AddName(t.aliases, alias, account, account in t.accounts);
    (t.(aliases := names), ok)
  }

  function RemoveAlias(t: Tables, alias: string, account: nat): (Tables, bool) {
    var (names, ok) := RemoveName(t.aliases, alias, account);
    (t.(aliases := names), ok)
  }

  function AddCharacter(t: Tables, name: string, account: nat): (Tables, bool) {
    var (names, ok) := AddName(t.characters, name, account, account in t.accounts);
    (t.(characters := names), ok)
  }

  function RemoveCharacter(t: Tables, name: string, account: nat): (Tables, bool) {
    var (names, ok) := RemoveName(t.characters, name, account);
    (t.(characters := names), ok)
  }

  function AddTag(t: Tables, tag: string, account: nat): (Tables, bool) {
    var (tags, ok) := AddTagTo(t.tags, tag, account, account in t.accounts);
    (t.(tags := tags), ok)
  }

  function RemoveTag(t: Tables, tag: string, account: nat): (Tables, bool) {
    var (tags, ok) := RemoveTagFrom(t.tags, tag, account);
    (t.(tags := tags), ok)
  }

  // ----- Sharing -----

  datatype ShareError = UsernameRequired | AccountExists | PasswordRequired | BadRecipient | BadGroup | Refused

  /** Aliases of a share are added as far as they go; conflicts are ignored. */
  function AddAliases(t: Tables, username: string, aliases: seq<string>, account: nat): Tables {
    if aliases == [] then t
    else
      var before, al := AddAliases(t, username, aliases[..|aliases| - 1], account), Trim(aliases[|aliases| - 1]);
      if al == "" || EqualFold(al, username) then before else AddAlias(before, al, account).0
  }

  /** The account a share writes to: the owner's own restricted one, or a new one. */
  function ShareTarget(t: Tables, owner: nat, username: string, password: string): (Tables, Result<nat, ShareError>) {
    match FindAccount(t, username)
    case Some(id) =>
      if id !in t.accounts || !t.accounts[id].restricted || t.accounts[id].owner != Some(owner) then (t, Err(AccountExists))
      else
        var t1 := if Trim(password) != "" then SetEQPassword(t, id, password) else t;
        var t2 := MakeRestricted(t1, id, owner);
        (ReplaceAccountUsers(t2, id, []).0, Ok(id))
    case None =>
      if Trim(password) == "" then (t, Err(PasswordRequired))
      else
        var (t1, added) := AddEQAccount(t, username, password);
        match added
        case None => (t1, Err(Refused))
        case Some(id) => (MakeRestricted(t1, id, owner), Ok(id))
  }

  function SharesBefore(t: Tables, username: string): set<nat> {
    match FindAccount(t, username)
    case None => {}
    case Some(id) => Of(t.shares, id)
  }

  /** The owner is never a recipient of his own share. */
  function Recipients(owner: nat, users: seq<int>): seq<nat> {
    CleanIds(WithoutOwner(owner, users))
  }

  function WithoutOwner(owner: nat, users: seq<int>): seq<int> {
    if users == [] then []
    else
      var before, u := WithoutOwner(owner, users[..|users| - 1]), users[|users| - 1];
      if u == owner then before else before + [u]
  }

  /** Recipients in incoming that were not there before. */
  function NewRecipients(previous: set<nat>, incoming: seq<nat>): seq<nat> {
    if incoming == [] then []
    else
      var before, u := NewRecipients(previous, incoming[..|incoming| - 1]), incoming[|incoming| - 1];
      if u in previous then before else before + [u]
  }

  datatype Shared = Shared(account: nat, notified: seq<nat>)

  function ShareLocalAccount(t: Tables, owner: nat, username0: string, password: string, aliases: seq<string>,
                             users: seq<int>, roles: seq<string>, groups: seq<int>): (Tables, Result<Shared, ShareError>) {
    var username := Trim(username0);
    if username == "" then (t, Err(UsernameRequired))
    else
      var recipients := Recipients(owner, users);
      var (t1, target) := ShareTarget(t, owner, username, password);
      match target
      case Err(e) => (t1, Err(e))
      case Ok(id) =>
        var t2 := AddAliases(t1, username, aliases, id);
        var (t3, ok3) := ReplaceAccountShares(t2, id, recipients);
        if !ok3 then (t3, Err(BadRecipient))
        else
          var (t4, ok4) := ReplaceAccountRoles(t3, id, CleanRoles(roles));
          if !ok4 then (t4, Err(Refused))
          else
            var (t5, ok5) := ReplaceAccountGroups(t4, id, CleanIds(groups));
            if !ok5 then (t5, Err(BadGroup))
            else (t5, Ok(Shared(id, NewRecipients(SharesBefore(t, username), recipients))))
  }

  // ----- Groups -----

  const DEFAULT_GROUP_NAME := "Default"
  const KNOWN_COMMANDS: set<string> := {"sso", "whoami"}

  function DefaultGroupDescription(): string {
    "System group — auto-assigned when a user has no other group. Discord commands only (no web UI)."
  }

  predicate IsDefaultGroupName(name: string) {
    EqualFold(Trim(name), DEFAULT_GROUP_NAME)
  }

  function NormalizeWebRole(role: string): Option<string> {
    var r := Lower(Trim(role));
    if r in {"", "none", "off", "disabled"} then Some("")
    else if r == "admin" then Some("admin")
    else if r in {"readonly", "read_only", "read-only", "viewer"} then Some("readonly")
    else None
  }

  /** The stored list is sorted and without repeats, so a set says all of it. */
  function NormalizeCommands(commands: seq<string>): Option<set<string>> {
    if commands == [] then Some({})
    else
      match NormalizeCommands(commands[..|commands| - 1])
      case None => None
      case Some(before) =>
        var c := Lower(Trim(commands[|commands| - 1]));
        if c == "" then Some(before) else if c !in KNOWN_COMMANDS then None else Some(before + {c})
  }

  /** The lowest id from `from` on whose group has a name with this key; the query's LIMIT 1
      leaves the choice open where names differ only in case. */
  function GroupFrom(groups: map<nat, Group>, key: string, from: nat, upTo: nat): Option<nat>
    decreases upTo - from
  {
    if from >= upTo then None
    else if from in groups && Lower(groups[from].name) == key then Some(from)
    else GroupFrom(groups, key, from + 1, upTo)
  }

  function FindGroup(t: Tables, name: string): Option<nat> {
    if Trim(name) == "" then None else GroupFrom(t.groups, Lower(Trim(name)), 1, t.nextGroup)
  }

  predicate NameTaken(t: Tables, name: string, but: nat) {
    exists g :: g in t.groups && g != but && t.groups[g].name == name
  }

  function CreateGroup(t: Tables, name0: string, description: string, webRole0: string, commands0: seq<string>)
    : (Tables, Option<nat>)
  {
    var name := Trim(name0);
    if name == "" then (t, None)
    else if IsDefaultGroupName(name) && FindGroup(t, DEFAULT_GROUP_NAME).Some? then (t, None)
    else
      match (NormalizeWebRole(webRole0), NormalizeCommands(commands0))
      case (Some(webRole), Some(commands)) =>
        if NameTaken(t, name, 0) then (t, None)
        else (t.(groups := t.groups[t.nextGroup := Group(name, description, webRole, commands)],
                 nextGroup := t.nextGroup + 1), Some(t.nextGroup))
      case _ => (t, None)
  }

  predicate IsDefaultGroup(t: Tables, g: nat) {
    g in t.groups && IsDefaultGroupName(t.groups[g].name)
  }

  function UpdateGroupMeta(t: Tables, g: nat, name0: string, description: string, webRole0: string, commands0: seq<string>)
    : (Tables, bool)
  {
    var isDefault := IsDefaultGroup(t, g);
    var name := if isDefault then DEFAULT_GROUP_NAME else Trim(name0);
    if !isDefault && (name == "" || IsDefaultGroupName(name)) then (t, false)
    else
      match (NormalizeWebRole(if isDefault then "" else webRole0),
             NormalizeCommands(if isDefault then ["sso", "whoami"] else commands0))
      case (Some(webRole), Some(commands)) =>
        if g !in t.groups || NameTaken(t, name, g) then (t, false)
        else (t.(groups := t.groups[g := Group(name, Trim(description), webRole, commands)]), true)
      case _ => (t, false)
  }

  /** One transaction: a bad user rolls everything back. */
  function ReplaceGroupMembership(t: Tables, g: nat, users: seq<int>, roles: seq<string>): (Tables, bool) {
    var us, rs := CleanIds(users), CleanRoles(roles);
    if (us != [] || rs != []) && (g !in t.groups || !(Elems(us) <= t.users.Keys)) then (t, false)
    else (t.(memberUsers := Put(t.memberUsers, g, Elems(us)), memberRoles := Put(t.memberRoles, g, Elems(rs))), true)
  }

  function ReplaceGroupAccountLinks(t: Tables, g: nat, accounts: seq<int>): (Tables, bool) {
    var ids := CleanIds(accounts);
    if ids != [] && (g !in t.groups || !(Elems(ids) <= t.accounts.Keys)) then (t, false)
    else (t.(links := PutFor(t.links, g, Elems(ids))), true)
  }

  /** Links go with the group. */
  function DeleteGroup(t: Tables, g: nat): (Tables, bool) {
    if IsDefaultGroup(t, g) || g !in t.groups then (t, false)
    else
      (t.(groups := t.groups - {g}, memberUsers := Put(t.memberUsers, g, {}), memberRoles := Put(t.memberRoles, g, {}),
          links := PutFor(t.links, g, {})), true)
  }

  function AddGroupUser(t: Tables, g: nat, user: nat): (Tables, bool) {
    if g in t.groups && user in t.users then (t.(memberUsers := t.memberUsers + {(g, user)}), true) else (t, false)
  }

  function RemoveGroupUser(t: Tables, g: nat, user: nat): Tables {
    t.(memberUsers := t.memberUsers - {(g, user)})
  }

  function AddGroupRole(t: Tables, g: nat, role: string): (Tables, bool) {
    if Trim(role) != "" && g in t.groups then (t.(memberRoles := t.memberRoles + {(g, Trim(role))}), true) else (t, false)
  }

  function RemoveGroupRole(t: Tables, g: nat, role: string): Tables {
    t.(memberRoles := t.memberRoles - {(g, Trim(role))})
  }

  function LinkAccountGroup(t: Tables, account: nat, g: nat): (Tables, bool) {
    if g in t.groups && account in t.accounts then (t.(links := t.links + {(account, g)}), true) else (t, false)
  }

  function UnlinkAccountGroup(t: Tables, account: nat, g: nat): Tables {
    t.(links := t.links - {(account, g)})
  }

  /** An empty result where the unique index on names refuses the rename. */
  function SyncDefaultGroup(t: Tables, g: nat): Option<Tables> {
    if g !in t.groups then Some(t)
    else if NameTaken(t, DEFAULT_GROUP_NAME, g) then None
    else
      var stored := t.groups[g].description;
      var description := if forall i :: 0 <= i < |stored| ==> stored[i] == ' ' then DefaultGroupDescription() else stored;
      Some(t.(groups := t.groups[g := Group(DEFAULT_GROUP_NAME, description, "", KNOWN_COMMANDS)]))
  }

  function EnsureDefaultGroup(t: Tables): (Tables, Option<nat>) {
    match FindGroup(t, DEFAULT_GROUP_NAME)
    case Some(g) =>
      (match SyncDefaultGroup(t, g)
       case None => (t, None)
       case Some(t') => (t', Some(g)))
    case None => CreateGroup(t, DEFAULT_GROUP_NAME, DefaultGroupDescription(), "", ["sso", "whoami"])
  }

  /** The groups a user is in, directly or by a role. */
  function GroupsOf(t: Tables, user: nat): set<nat> {
    set g | g in t.groups && IsMember(t, user, g)
  }

  predicate IsMember(t: Tables, user: nat, g: nat) {
    (g, user) in t.memberUsers || (user in t.users && exists role :: role in t.users[user].roles && (g, role) in t.memberRoles)
  }

  function EnsureUserInDefaultGroupIfNone(t: Tables, user: nat): (Tables, bool) {
    if user == 0 || GroupsOf(t, user) != {} then (t, true)
    else
      match EnsureDefaultGroup(t)
      case (t', None) => (t', false)
      case (t', Some(g)) => AddGroupUser(t', g, user)
  }

  // ----- Deleting an account -----

  function NamesNotOf(names: map<string, Named>, account: nat): map<string, Named> {
    map k | k in names && names[k].account != account :: names[k]
  }

  function TagsNotOf(tags: map<(string, nat), string>, account: nat): map<(string, nat), string> {
    map k | k in tags && k.1 != account :: tags[k]
  }

  /** Everything that refers to the account goes with it. */
  function DeleteEQAccount(t: Tables, account: nat): (Tables, bool) {
    if account !in t.accounts then (t, false)
    else
      (t.(accounts := t.accounts - {account}, accountIds := t.accountIds - {AccountKey(t.accounts[account].username)},
          aliases := NamesNotOf(t.aliases, account), characters := NamesNotOf(t.characters, account),
          tags := TagsNotOf(t.tags, account), accessRoles := Put(t.accessRoles, account, {}),
          accessUsers := Put(t.accessUsers, account, {}), shares := Put(t.shares, account, {}),
          links := Put(t.links, account, {})), true)
  }

  // ----- Slash commands -----

  /** Whether any group grants the command; nothing for an unknown command. */
  function IsCommandRestricted(t: Tables, command: string): Option<bool> {
    var key := Lower(Trim(command));
    if key !in KNOWN_COMMANDS then None else Some(exists g :: g in t.groups && key in t.groups[g].commands)
  }

  function UserCanUseCommand(t: Tables, user: nat, command: string): Option<bool> {
    match IsCommandRestricted(t, command)
    case None => None
    case Some(false) => Some(true)
    case Some(true) => Some(exists g :: g in t.groups && Lower(Trim(command)) in t.groups[g].commands && IsMember(t, user, g))
  }
}
