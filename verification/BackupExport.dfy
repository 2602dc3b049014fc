// What an export of the tables says, in any order of rows: database ids become Discord ids,
// usernames and group names.
module BackupExport {
  import opened BackupOps
  import opened StoreOps
  import opened Tables
  import opened Text

  /** The list holds each of these values once. */
  ghost predicate Lists<T>(xs: seq<T>, values: set<T>) {
    Elems(xs) == values && forall i, j :: 0 <= i < j < |xs| ==> xs[i] != xs[j]
  }

  /** Users that have a Discord id. */
  function Listed(s: Tables): set<nat> {
    set u | u in s.users && s.users[u].discordId != ""
  }

  function DiscordIds(s: Tables, users: set<nat>): set<string> {
    set u | u in users && u in Listed(s) :: s.users[u].discordId
  }

  function NamesOfGroups(s: Tables, groups: set<nat>): set<string> {
    set g | g in groups && g in s.groups :: s.groups[g].name
  }

  function Usernames(s: Tables, accounts: set<nat>): set<string> {
    set a | a in accounts && a in s.accounts && s.accounts[a].username != "" :: s.accounts[a].username
  }

  /** The aliases other than the username itself. */
  function OtherNames(aliases: set<string>, username: string): set<string> {
    set x | x in aliases && x != "" && !EqualFold(x, username)
  }

  ghost predicate ExportsUser(s: Tables, u: nat, row: UserRow) {
    u in s.users && row == UserRow(s.users[u].discordId, s.users[u].displayName, s.users[u].roles, s.users[u].revoked)
  }

  ghost predicate ExportsAccount(s: Tables, withPasswords: bool, a: nat, row: AccountRow) {
    && a in s.accounts
    && var account := s.accounts[a];
       && row.username == account.username
       && row.password == (if withPasswords then account.password else "")
       && row.disabled == account.disabled && row.restricted == account.restricted
       && row.ownerId == (if account.owner.Some? && account.owner.value in Listed(s) then s.users[account.owner.value].discordId else "")
       && Elems(row.sharedIds) == DiscordIds(s, if account.restricted then Of(s.shares, a) else {})
       && Lists(row.roles, Of(s.accessRoles, a))
       && Elems(row.userIds) == DiscordIds(s, Of(s.accessUsers, a))
       && Elems(row.groupNames) == NamesOfGroups(s, Of(s.links, a))
       && Lists(row.aliases, OtherNames(NamesOf(s.aliases, a), account.username))
       && Lists(row.tags, TagsOf(s.tags, a))
       && Lists(row.characters, NamesOf(s.characters, a))
  }

  ghost predicate ExportsGroup(s: Tables, g: nat, row: GroupRow) {
    && g in s.groups
    && row.name == s.groups[g].name && row.description == s.groups[g].description && row.webRole == s.groups[g].webRole
    && Elems(row.commands) == s.groups[g].commands
    && Elems(row.memberIds) == DiscordIds(s, Of(s.memberUsers, g))
    && Lists(row.memberRoles, Of(s.memberRoles, g))
    && Elems(row.usernames) == Usernames(s, Having(s.links, g))
  }

  /** Which row of a backup is for which user, account and group. */
  datatype Index = Index(users: seq<nat>, accounts: seq<nat>, groups: seq<nat>)

  ghost predicate Exports(s: Tables, withPasswords: bool, bak: Backup, index: Index) {
    && Lists(index.users, Listed(s)) && |bak.users| == |index.users|
    && (forall i :: 0 <= i < |bak.users| ==> ExportsUser(s, index.users[i], bak.users[i]))
    && Lists(index.accounts, s.accounts.Keys) && |bak.accounts| == |index.accounts|
    && (forall i :: 0 <= i < |bak.accounts| ==> ExportsAccount(s, withPasswords, index.accounts[i], bak.accounts[i]))
    && Lists(index.groups, s.groups.Keys) && |bak.groups| == |index.groups|
    && (forall i :: 0 <= i < |bak.groups| ==> ExportsGroup(s, index.groups[i], bak.groups[i]))
  }
}
