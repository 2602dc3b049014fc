// The users stage of an import.
module BackupUsers {
  import opened BackupOps
  import opened Roles
  import opened StoreOps
  import opened StoreSound
  import opened Tables
  import opened Text

  /** The user a row describes. */
  function UserOfRow(row: UserRow): User {
    User(row.discordId, row.displayName, CleanRoles(row.roles), row.revoked)
  }

  /** Every row has a Discord id, trimmed, and no two the same. */
  ghost predicate UserRowsGood(rows: seq<UserRow>) {
    && (forall i :: 0 <= i < |rows| ==> rows[i].discordId != "" && IsTrimmed(rows[i].discordId))
    && (forall i, j :: 0 <= i < j < |rows| ==> rows[i].discordId != rows[j].discordId)
  }

  /** The user is there, under its id if it had one. */
  ghost predicate UserPlaced(t: Tables, row: UserRow) {
    row.discordId in t.userIds && t.userIds[row.discordId] in t.users && t.users[t.userIds[row.discordId]] == UserOfRow(row)
  }

  /** Only users changed, ids stayed, and users whose Discord id is not in `ids` are as before. */
  ghost predicate UsersOnly(t: Tables, t': Tables, ids: set<string>) {
    && t' == t.(users := t'.users, userIds := t'.userIds, nextUser := t'.nextUser)
    && t.users.Keys <= t'.users.Keys
    && t'.userIds.Keys == t.userIds.Keys + ids
    && (forall d :: d in t.userIds ==> t'.userIds[d] == t.userIds[d])
    && (forall u :: u in t.users && t.users[u].discordId !in ids ==> t'.users[u] == t.users[u])
  }

  /** The id a row's user has or gets. */
  function RowUser(t: Tables, discordId: string): nat {
    if discordId in t.userIds then t.userIds[discordId] else t.nextUser
  }

  /** Importing a row stores exactly what it says, under the user's id. */
  lemma ImportUserIs(t: Tables, row: UserRow)
    requires UsersIndexed(t.users, t.userIds, t.nextUser) && row.discordId != "" && IsTrimmed(row.discordId)
    ensures var id := RowUser(t, row.discordId);
      ImportUser(t, row)
      == t.(users := t.users[id := UserOfRow(row)], userIds := t.userIds[row.discordId := id],
            nextUser := if row.discordId in t.userIds then t.nextUser else t.nextUser + 1)
  {
    hide CleanRoles, Trim, UpsertUser, UsersIndexed;
    TrimOfTrimmed(row.discordId);
    UpsertedAs(t, row.discordId, row.displayName, row.roles);
    var id := RowUser(t, row.discordId);
    var (t1, u) := UpsertUser(t, row.discordId, row.displayName, row.roles);
    var t2 := SetUserRoles(t1, u, row.roles);
    assert t2.users == t.users[id := User(row.discordId, row.displayName, CleanRoles(row.roles), t2.users[id].revoked)];
  }

  lemma UpsertedAs(t: Tables, discordId: string, displayName: string, roles: seq<string>)
    requires UsersIndexed(t.users, t.userIds, t.nextUser)
    ensures var (t', u) := UpsertUser(t, discordId, displayName, roles);
      && u == RowUser(t, discordId) && u in t'.users
      && t'.users[u].discordId == discordId && t'.users[u].displayName == displayName
      && t' == t.(users := t.users[u := t'.users[u]], userIds := t.userIds[discordId := u],
                  nextUser := if discordId in t.userIds then t.nextUser else t.nextUser + 1)
  {
    if discordId in t.userIds {
      IndexedUser(t, discordId);
      assert t.userIds[discordId := t.userIds[discordId]] == t.userIds;
    }
  }

  lemma ImportUserStep(t: Tables, row: UserRow)
    requires Valid(t) && row.discordId != "" && IsTrimmed(row.discordId)
    ensures var t' := ImportUser(t, row);
      Valid(t') && UserPlaced(t', row) && UsersOnly(t, t', {row.discordId})
  {
    hide Valid, UsersIndexed, ImportUser, UserOfRow;
    ValidUsers(t);
    ImportUserIs(t, row);
    OthersKeepId(t, row.discordId);
    UserOfRowId(row);
    PutUserIndexed(t, row.discordId, UserOfRow(row));
    var t' := ImportUser(t, row);
    UserRowsValid(t, t'.users, t'.userIds, t'.nextUser);
  }

  lemma UserOfRowId(row: UserRow)
    ensures UserOfRow(row).discordId == row.discordId
  {
  }

  lemma PutUserIndexed(t: Tables, discordId: string, user: User)
    requires UsersIndexed(t.users, t.userIds, t.nextUser) && user.discordId == discordId
    ensures var id := RowUser(t, discordId);
      && UsersIndexed(t.users[id := user], t.userIds[discordId := id],
                      if discordId in t.userIds then t.nextUser else t.nextUser + 1)
      && t.users.Keys <= t.users[id := user].Keys
  {
  }

  lemma OthersKeepId(t: Tables, discordId: string)
    requires UsersIndexed(t.users, t.userIds, t.nextUser)
    ensures discordId !in t.userIds ==> t.nextUser !in t.users
    ensures forall u :: u in t.users && t.users[u].discordId != discordId && discordId in t.userIds ==> u != t.userIds[discordId]
  {
  }

  function RowIds(rows: seq<UserRow>): set<string> {
    set i | 0 <= i < |rows| :: rows[i].discordId
  }

  lemma UsersOnlyThen(t: Tables, t1: Tables, t2: Tables, ids: set<string>, id: string)
    requires Valid(t) && UsersIndexed(t1.users, t1.userIds, t1.nextUser)
    requires UsersOnly(t, t1, ids) && UsersOnly(t1, t2, {id})
    ensures UsersOnly(t, t2, ids + {id})
  {
    PlacedIds(t, t1);
    hide Valid, UsersIndexed;
  }

  /** After the stage every row's user is there exactly as the row says. */
  lemma {:induction false} ImportUsersAre(t: Tables, rows: seq<UserRow>)
    requires Valid(t) && UserRowsGood(rows)
    ensures var t' := ImportUsers(t, rows);
      && Valid(t') && UsersOnly(t, t', RowIds(rows))
      && forall i :: 0 <= i < |rows| ==> UserPlaced(t', rows[i])
  {
    hide Valid, UsersIndexed, ImportUser, UserOfRow, IsTrimmed, UsersOnly, UserPlaced;
    if rows == [] {
      NoUserRows(t);
    } else {
      var last := |rows| - 1;
      ImportUsersAre(t, rows[..last]);
      var t1 := ImportUsers(t, rows[..last]);
      ImportUserStep(t1, rows[last]);
      ValidUsers(t1);
      UsersOnlyThen(t, t1, ImportUser(t1, rows[last]), RowIds(rows[..last]), rows[last].discordId);
      assert RowIds(rows) == RowIds(rows[..last]) + {rows[last].discordId};
      forall i | 0 <= i < last
        ensures UserPlaced(ImportUser(t1, rows[last]), rows[i])
      {
        assert UserPlaced(t1, rows[..last][i]);
        StillPlaced(t1, ImportUser(t1, rows[last]), rows[i], rows[last].discordId);
      }
    }
  }

  lemma NoUserRows(t: Tables)
    ensures UsersOnly(t, t, RowIds([]))
  {
    assert RowIds([]) == {};
  }

  lemma StillPlaced(t: Tables, t': Tables, row: UserRow, id: string)
    requires UserPlaced(t, row) && UsersOnly(t, t', {id}) && row.discordId != id
    ensures UserPlaced(t', row)
  {
  }

  lemma PlacedIds(t: Tables, t1: Tables)
    requires UsersIndexed(t1.users, t1.userIds, t1.nextUser) && Valid(t)
    requires forall d :: d in t.userIds ==> d in t1.userIds && t1.userIds[d] == t.userIds[d]
    ensures forall u :: u in t.users ==> u in t1.users && t1.users[u].discordId == t.users[u].discordId
  {
  }
}
