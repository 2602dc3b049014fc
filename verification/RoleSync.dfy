// The bot's role refresh: page through the guild's members, write the roles of every known
// user found there, and clear the roles of the known users who never turned up. Discord's
// paging is a function on the roster, which is sorted by member id; the outcome of every
// page request and of every write is an arbitrary oracle.
module RoleSync {
  import opened Roles
  import opened Wrappers

  const PAGE_SIZE := 1000

  datatype Member = Member(id: nat, roles: seq<string>)

  /** The known users: Discord id and stored roles, by user id. */
  datatype Known = Known(discordId: nat, roles: seq<string>)

  predicate Sorted(roster: seq<Member>) {
    forall i, j :: 0 <= i < j < |roster| ==> roster[i].id < roster[j].id
  }

  /** The members after a given id, at most a page of them. Real ids are positive, so paging
      starts after 0. */
  function Page(roster: seq<Member>, after: nat): seq<Member> {
    var rest := After(roster, after);
    if |rest| <= PAGE_SIZE then rest else rest[..PAGE_SIZE]
  }

  function After(roster: seq<Member>, after: nat): seq<Member> {
    if roster == [] then []
    else if roster[0].id > after then roster
    else After(roster[1..], after)
  }

  // ----- What the loop leaves -----

  /** The roles of the member with an id, if there is one. */
  function RolesOf(members: seq<Member>, id: nat): Option<seq<string>> {
    if members == [] then None
    else if members[|members| - 1].id == id then Some(members[|members| - 1].roles)
    else RolesOf(members[..|members| - 1], id)
  }

  /** A user is settled once found among the members and successfully written. */
  predicate Settled(u: nat, user: Known, members: seq<Member>, updateOk: nat -> bool) {
    RolesOf(members, user.discordId).Some? && updateOk(u)
  }

  function Updated(users: map<nat, Known>, members: seq<Member>, updateOk: nat -> bool): map<nat, Known> {
    map u | u in users ::
      if Settled(u, users[u], members, updateOk)
      then users[u].(roles := CleanRoles(RolesOf(members, users[u].discordId).value)) else users[u]
  }

  /** The users still waiting, by Discord id. */
  ghost predicate Waiting(byDiscord: map<nat, nat>, users: map<nat, Known>, members: seq<Member>, updateOk: nat -> bool) {
    && (forall d :: d in byDiscord ==> byDiscord[d] in users && users[byDiscord[d]].discordId == d)
    && (forall u :: u in users ==> (users[u].discordId in byDiscord <==> !Settled(u, users[u], members, updateOk)))
  }

  ghost predicate DistinctIds(users: map<nat, Known>) {
    forall u, v :: u in users && v in users && users[u].discordId == users[v].discordId ==> u == v
  }

  lemma {:induction false} AfterLast(roster: seq<Member>, d: nat)
    requires Sorted(roster) && 0 < d <= |roster|
    ensures After(roster, roster[d - 1].id) == roster[d..]
  {
    if d == 1 {
      if |roster| > 1 {
        assert roster[1..][0].id > roster[0].id;
      }
      assert After(roster, roster[0].id) == After(roster[1..], roster[0].id);
    } else {
      AfterLast(roster[1..], d - 1);
      assert roster[1..][d - 1..] == roster[d..];
    }
  }

  lemma {:induction false} RolesOfSorted(roster: seq<Member>, d: nat, id: nat)
    requires Sorted(roster) && d < |roster|
    ensures RolesOf(roster[..d + 1], id)
         == if roster[d].id == id then Some(roster[d].roles) else RolesOf(roster[..d], id)
    ensures RolesOf(roster[..d], roster[d].id) == None
  {
    assert roster[..d + 1][..d] == roster[..d];
    NotYet(roster, d, roster[d].id);
  }

  lemma {:induction false} NotYet(roster: seq<Member>, d: nat, id: nat)
    requires Sorted(roster) && d <= |roster|
    requires forall i :: 0 <= i < d ==> roster[i].id != id
    ensures RolesOf(roster[..d], id) == None
  {
    if d > 0 {
      assert roster[..d][..d - 1] == roster[..d - 1];
      NotYet(roster, d - 1, id);
    }
  }

  function SettledUsers(users: map<nat, Known>, members: seq<Member>, updateOk: nat -> bool): set<nat> {
    set u | u in users && Settled(u, users[u], members, updateOk)
  }

  /** The users whose roles a complete refresh clears. */
  function ClearedUsers(users: map<nat, Known>, members: seq<Member>, updateOk: nat -> bool, clearOk: nat -> bool): set<nat> {
    set u | u in users && !Settled(u, users[u], members, updateOk) && clearOk(u)
  }

  /** What a complete refresh leaves: settled users hold the guild's roles, the others none,
      unless their write failed. */
  function Swept(users: map<nat, Known>, members: seq<Member>, updateOk: nat -> bool, clearOk: nat -> bool): map<nat, Known> {
    map u | u in users ::
      if Settled(u, users[u], members, updateOk)
      then users[u].(roles := CleanRoles(RolesOf(members, users[u].discordId).value))
      else if clearOk(u) then users[u].(roles := []) else users[u]
  }

  function ByDiscord(users: map<nat, Known>): map<nat, nat>
    requires DistinctIds(users)
  {
    map u | u in users :: users[u].discordId := u
  }

  lemma StartWaiting(users: map<nat, Known>, updateOk: nat -> bool)
    requires DistinctIds(users)
    ensures Waiting(ByDiscord(users), users, [], updateOk)
    ensures Updated(users, [], updateOk) == users && SettledUsers(users, [], updateOk) == {}
  {
  }

  /** Which users one more member settles. */
  lemma OneSettles(users: map<nat, Known>, roster: seq<Member>, d: nat, updateOk: nat -> bool)
    requires Sorted(roster) && d < |roster|
    ensures forall u :: u in users ==>
      && (Settled(u, users[u], roster[..d + 1], updateOk)
          <==> Settled(u, users[u], roster[..d], updateOk) || (users[u].discordId == roster[d].id && updateOk(u)))
      && (users[u].discordId == roster[d].id ==> !Settled(u, users[u], roster[..d], updateOk))
      && RolesOf(roster[..d + 1], users[u].discordId)
         == (if roster[d].id == users[u].discordId then Some(roster[d].roles) else RolesOf(roster[..d], users[u].discordId))
  {
    hide RolesOf;
    forall u | u in users
      ensures RolesOf(roster[..d + 1], users[u].discordId)
           == if roster[d].id == users[u].discordId then Some(roster[d].roles) else RolesOf(roster[..d], users[u].discordId)
      ensures roster[d].id == users[u].discordId ==> RolesOf(roster[..d], users[u].discordId) == None
    {
      RolesOfSorted(roster, d, users[u].discordId);
    }
  }

  lemma SettledHasRoles(users: map<nat, Known>, members: seq<Member>, updateOk: nat -> bool)
    ensures forall u :: u in users && Settled(u, users[u], members, updateOk) ==> RolesOf(members, users[u].discordId).Some? && updateOk(u)
  {
    hide RolesOf;
  }

  /** One member: settles the matching user if there is one and the write succeeds. */
  lemma OneMember(users: map<nat, Known>, byDiscord: map<nat, nat>, roster: seq<Member>, d: nat, updateOk: nat -> bool)
    requires Sorted(roster) && d < |roster| && DistinctIds(users)
    requires Waiting(byDiscord, users, roster[..d], updateOk)
    ensures var m := roster[d];
      var before, after := Updated(users, roster[..d], updateOk), Updated(users, roster[..d + 1], updateOk);
      if m.id in byDiscord && updateOk(byDiscord[m.id])
      then byDiscord[m.id] in before
           && after == before[byDiscord[m.id] := before[byDiscord[m.id]].(roles := CleanRoles(m.roles))]
           && Waiting(byDiscord - {m.id}, users, roster[..d + 1], updateOk)
           && |SettledUsers(users, roster[..d + 1], updateOk)| == |SettledUsers(users, roster[..d], updateOk)| + 1
      else after == before && Waiting(byDiscord, users, roster[..d + 1], updateOk)
           && SettledUsers(users, roster[..d + 1], updateOk) == SettledUsers(users, roster[..d], updateOk)
  {
    hide RolesOf, CleanRoles, Sorted, Settled, Updated;
    OneSettles(users, roster, d, updateOk);
    var m := roster[d];
    if m.id in byDiscord && updateOk(byDiscord[m.id]) {
      UpdatedOne(users, roster, d, updateOk, byDiscord[m.id]);
      var w := byDiscord[m.id];
      assert SettledUsers(users, roster[..d + 1], updateOk) == SettledUsers(users, roster[..d], updateOk) + {w};
    } else {
      assert forall u :: u in users ==>
        (Settled(u, users[u], roster[..d + 1], updateOk) <==> Settled(u, users[u], roster[..d], updateOk));
      UpdatedNone(users, roster, d, updateOk);
    }
  }

  lemma UpdatedOne(users: map<nat, Known>, roster: seq<Member>, d: nat, updateOk: nat -> bool, w: nat)
    requires Sorted(roster) && d < |roster| && DistinctIds(users)
    requires w in users && users[w].discordId == roster[d].id && updateOk(w)
    ensures var before := Updated(users, roster[..d], updateOk);
      w in before && Updated(users, roster[..d + 1], updateOk) == before[w := before[w].(roles := CleanRoles(roster[d].roles))]
  {
    hide RolesOf, CleanRoles, Sorted, Settled;
    OneSettles(users, roster, d, updateOk);
    SettledHasRoles(users, roster[..d], updateOk);
    SettledHasRoles(users, roster[..d + 1], updateOk);
  }

  lemma UpdatedNone(users: map<nat, Known>, roster: seq<Member>, d: nat, updateOk: nat -> bool)
    requires Sorted(roster) && d < |roster|
    requires forall u :: u in users && users[u].discordId == roster[d].id ==> !updateOk(u)
    ensures Updated(users, roster[..d + 1], updateOk) == Updated(users, roster[..d], updateOk)
  {
    hide RolesOf, CleanRoles, Sorted, Settled;
    OneSettles(users, roster, d, updateOk);
    SettledHasRoles(users, roster[..d], updateOk);
    SettledHasRoles(users, roster[..d + 1], updateOk);
  }

  /** One page of members, in order. */
  method ApplyPage(users: map<nat, Known>, ghost roster: seq<Member>, ghost d: nat, members: seq<Member>, updateOk: nat -> bool,
                   result0: map<nat, Known>, byDiscord0: map<nat, nat>, updated0: nat)
    returns (result: map<nat, Known>, byDiscord: map<nat, nat>, updated: nat)
    requires Sorted(roster) && DistinctIds(users)
    requires d + |members| <= |roster| && members == roster[d..d + |members|]
    requires result0 == Updated(users, roster[..d], updateOk)
    requires Waiting(byDiscord0, users, roster[..d], updateOk)
    requires updated0 == |SettledUsers(users, roster[..d], updateOk)|
    ensures result == Updated(users, roster[..d + |members|], updateOk)
    ensures Waiting(byDiscord, users, roster[..d + |members|], updateOk)
    ensures updated == |SettledUsers(users, roster[..d + |members|], updateOk)|
  {
    hide Settled, Updated, SettledUsers, CleanRoles, RolesOf, Waiting;
    result, byDiscord, updated := result0, byDiscord0, updated0;
    for i := 0 to |members|
      invariant result == Updated(users, roster[..d + i], updateOk)
      invariant Waiting(byDiscord, users, roster[..d + i], updateOk)
      invariant updated == |SettledUsers(users, roster[..d + i], updateOk)|
    {
      var m := members[i];
      assert m == roster[d + i];
      OneMember(users, byDiscord, roster, d + i, updateOk);
      if m.id !in byDiscord {
        continue;
      }
      var u := byDiscord[m.id];
      if !updateOk(u) {
        continue;
      }
      var roles := Cleaned(m.roles);
      result := result[u := result[u].(roles := roles)];
      updated := updated + 1;
      byDiscord := byDiscord - {m.id};
    }
  }

  lemma PageOf(roster: seq<Member>, d: nat, after: nat)
    requires Sorted(roster) && d <= |roster| && After(roster, after) == roster[d..]
    ensures var members := Page(roster, after);
      && d + |members| <= |roster|
      && members == roster[d..d + |members|]
      && (members == [] || |members| < PAGE_SIZE ==> d + |members| == |roster|)
      && (members != [] ==> After(roster, members[|members| - 1].id) == roster[d + |members|..])
  {
    hide After;
    var members := Page(roster, after);
    if members != [] {
      assert members[|members| - 1] == roster[d + |members| - 1];
      AfterLast(roster, d + |members|);
    }
  }

  lemma FirstPage(roster: seq<Member>)
    requires forall i :: 0 <= i < |roster| ==> roster[i].id > 0
    ensures After(roster, 0) == roster[0..]
  {
  }

  /** The users cleared once the clearing pass has dealt with all Discord ids but `rest`. */
  function ClearedBut(users: map<nat, Known>, byDiscord: map<nat, nat>, clearOk: nat -> bool, rest: set<nat>): set<nat> {
    set u | u in users && users[u].discordId in byDiscord && users[u].discordId !in rest && clearOk(u)
  }

  function WithoutRoles(users: map<nat, Known>, done: set<nat>): map<nat, Known> {
    map u | u in users :: if u in done then users[u].(roles := []) else users[u]
  }

  lemma ClearOne(users: map<nat, Known>, byDiscord: map<nat, nat>, clearOk: nat -> bool, rest: set<nat>, d: nat)
    requires DistinctIds(users) && d in rest && rest <= byDiscord.Keys
    requires forall k :: k in byDiscord ==> byDiscord[k] in users && users[byDiscord[k]].discordId == k
    ensures var u := byDiscord[d];
      && u !in ClearedBut(users, byDiscord, clearOk, rest)
      && ClearedBut(users, byDiscord, clearOk, rest - {d})
         == ClearedBut(users, byDiscord, clearOk, rest) + if clearOk(u) then {u} else {}
  {
  }

  lemma OneMoreWithoutRoles(users: map<nat, Known>, done: set<nat>, u: nat)
    requires u in users && u !in done
    ensures u in WithoutRoles(users, done)
    ensures WithoutRoles(users, done)[u := WithoutRoles(users, done)[u].(roles := [])] == WithoutRoles(users, done + {u})
    ensures |done + {u}| == |done| + 1
  {
  }

  lemma ClearingDone(users: map<nat, Known>, roster: seq<Member>, updateOk: nat -> bool, clearOk: nat -> bool, byDiscord: map<nat, nat>)
    requires Waiting(byDiscord, users, roster, updateOk)
    ensures ClearedBut(users, byDiscord, clearOk, {}) == ClearedUsers(users, roster, updateOk, clearOk)
    ensures ClearedBut(users, byDiscord, clearOk, byDiscord.Keys) == {}
    ensures WithoutRoles(Updated(users, roster, updateOk), ClearedUsers(users, roster, updateOk, clearOk))
         == Swept(users, roster, updateOk, clearOk)
    ensures Updated(users, roster, updateOk).Keys == users.Keys
    ensures forall d :: d in byDiscord ==> byDiscord[d] in users && users[byDiscord[d]].discordId == d
  {
    hide RolesOf, CleanRoles, Settled;
  }

  lemma NothingCleared(users: map<nat, Known>)
    ensures WithoutRoles(users, {}) == users
  {
  }

  /** The clearing pass after the last page. */
  method ClearWaiting(users: map<nat, Known>, ghost roster: seq<Member>, ghost updateOk: nat -> bool, clearOk: nat -> bool,
                      result0: map<nat, Known>, byDiscord: map<nat, nat>)
    returns (result: map<nat, Known>, cleared: nat)
    requires DistinctIds(users) && Waiting(byDiscord, users, roster, updateOk)
    requires result0 == Updated(users, roster, updateOk)
    ensures result == Swept(users, roster, updateOk, clearOk)
    ensures cleared == |ClearedUsers(users, roster, updateOk, clearOk)|
  {
    hide *;
    ClearingDone(users, roster, updateOk, clearOk, byDiscord);
    NothingCleared(result0);
    result, cleared := result0, 0;
    var rest := byDiscord.Keys;
    while rest != {}
      invariant rest <= byDiscord.Keys
      invariant cleared == |ClearedBut(users, byDiscord, clearOk, rest)|
      invariant result == WithoutRoles(result0, ClearedBut(users, byDiscord, clearOk, rest))
      decreases |rest|
    {
      var d :| d in rest;
      ClearOne(users, byDiscord, clearOk, rest, d);
      var u := byDiscord[d];
      OneMoreWithoutRoles(result0, ClearedBut(users, byDiscord, clearOk, rest), u);
      rest := rest - {d};
      if clearOk(u) {
        result := result[u := result[u].(roles := [])];
        cleared := cleared + 1;
      }
    }
  }

  /** The paging loop: fetch, apply, and go on after the last id of the page. */
  method FetchAll(users: map<nat, Known>, roster: seq<Member>, pageOk: nat -> bool, updateOk: nat -> bool)
    returns (result: map<nat, Known>, byDiscord: map<nat, nat>, updated: nat, complete: bool, ghost seen: nat)
    requires Sorted(roster) && DistinctIds(users)
    requires forall i :: 0 <= i < |roster| ==> roster[i].id > 0
    ensures seen <= |roster| && (complete ==> seen == |roster|)
    ensures (forall k: nat :: pageOk(k)) ==> complete
    ensures result == Updated(users, roster[..seen], updateOk)
    ensures Waiting(byDiscord, users, roster[..seen], updateOk)
    ensures updated == |SettledUsers(users, roster[..seen], updateOk)|
  {
    hide *;
    byDiscord := ByDiscord(users);
    StartWaiting(users, updateOk);
    result, updated, complete, seen := users, 0, false, 0;
    FirstPage(roster);
    assert roster[..0] == [];
    var after: nat, page: nat := 0, 0;
    while !complete
      invariant seen <= |roster| && After(roster, after) == roster[seen..]
      invariant complete ==> seen == |roster|
      invariant result == Updated(users, roster[..seen], updateOk)
      invariant Waiting(byDiscord, users, roster[..seen], updateOk)
      invariant updated == |SettledUsers(users, roster[..seen], updateOk)|
      decreases |roster| - seen, !complete
    {
      if !pageOk(page) {
        return;
      }
      var members := Page(roster, after);
      PageOf(roster, seen, after);
      if |members| == 0 {
        complete := true;
      } else {
        result, byDiscord, updated := ApplyPage(users, roster, seen, members, updateOk, result, byDiscord, updated);
        seen := seen + |members|;
        after := members[|members| - 1].id;
        page := page + 1;
        complete := |members| < PAGE_SIZE;
      }
    }
  }

  /** The whole refresh. If every page arrives, each user found in the guild and written holds
      the cleaned guild roles, and every other user, where the write succeeds, holds none:
      that includes a member whose first write failed. If a page fails nobody is cleared. */
  method SyncMemberRoles(users: map<nat, Known>, roster: seq<Member>,
                         pageOk: nat -> bool, updateOk: nat -> bool, clearOk: nat -> bool)
    returns (result: map<nat, Known>, updated: nat, cleared: nat, complete: bool, ghost seen: nat)
    requires Sorted(roster) && DistinctIds(users)
    requires forall i :: 0 <= i < |roster| ==> roster[i].id > 0
    ensures seen <= |roster| && (complete ==> seen == |roster|)
    ensures (forall k: nat :: pageOk(k)) ==> complete
    ensures updated == |SettledUsers(users, roster[..seen], updateOk)|
    ensures complete ==> result == Swept(users, roster, updateOk, clearOk)
    ensures complete ==> cleared == |ClearedUsers(users, roster, updateOk, clearOk)|
    ensures !complete ==> cleared == 0 && result == Updated(users, roster[..seen], updateOk)
  {
    hide Settled, Updated, RolesOf, CleanRoles, SettledUsers, Swept, ClearedUsers, Waiting;
    if users == map[] {
      NoUsers(users, roster, updateOk, clearOk);
      assert roster[..|roster|] == roster;
      return users, 0, 0, true, |roster|;
    }
    var byDiscord;
    result, byDiscord, updated, complete, seen := FetchAll(users, roster, pageOk, updateOk);
    cleared := 0;
    if complete {
      assert roster[..seen] == roster;
      result, cleared := ClearWaiting(users, roster, updateOk, clearOk, result, byDiscord);
    }
  }

  lemma NoUsers(users: map<nat, Known>, roster: seq<Member>, updateOk: nat -> bool, clearOk: nat -> bool)
    requires users == map[]
    ensures Swept(users, roster, updateOk, clearOk) == users
    ensures SettledUsers(users, roster, updateOk) == {} == ClearedUsers(users, roster, updateOk, clearOk)
  {
  }

  /** A complete refresh in which every write succeeds accounts for every known user, and
      leaves exactly the cleaned roles of the guild, or none. */
  lemma CompleteRefresh(users: map<nat, Known>, roster: seq<Member>, updateOk: nat -> bool, clearOk: nat -> bool)
    requires forall u :: u in users ==> updateOk(u) && clearOk(u)
    ensures |SettledUsers(users, roster, updateOk)| + |ClearedUsers(users, roster, updateOk, clearOk)| == |users|
    ensures forall u :: u in users ==>
      Swept(users, roster, updateOk, clearOk)[u].roles
      == match RolesOf(roster, users[u].discordId)
         case Some(roles) => CleanRoles(roles)
         case None => []
  {
    hide RolesOf, CleanRoles;
    assert users.Keys == SettledUsers(users, roster, updateOk) + ClearedUsers(users, roster, updateOk, clearOk);
    assert |users| == |users.Keys|;
  }

  /** The refresh converges: run again on its own result it changes nothing more. */
  lemma RefreshIdempotent(users: map<nat, Known>, roster: seq<Member>, updateOk: nat -> bool, clearOk: nat -> bool)
    requires forall u :: u in users ==> updateOk(u) && clearOk(u)
    ensures var once := Swept(users, roster, updateOk, clearOk); Swept(once, roster, updateOk, clearOk) == once
  {
    hide RolesOf, CleanRoles;
  }

  lemma {:induction false} RolesOfMember(roster: seq<Member>, d: nat)
    requires Sorted(roster) && d < |roster|
    ensures RolesOf(roster, roster[d].id) == Some(roster[d].roles)
    decreases |roster|
  {
    var last := |roster| - 1;
    if d < last {
      RolesOfMember(roster[..last], d);
    }
  }

  lemma {:induction false} RolesOfNobody(roster: seq<Member>, id: nat)
    requires forall d :: 0 <= d < |roster| ==> roster[d].id != id
    ensures RolesOf(roster, id) == None
    decreases |roster|
  {
    if roster != [] {
      RolesOfNobody(roster[..|roster| - 1], id);
    }
  }

  /** What a complete refresh leaves of each user, told by the guild's members: a member whose
      update succeeds holds his guild roles, cleaned; everybody else holds none where the clear
      succeeds, and otherwise what he held. */
  lemma RefreshLeaves(users: map<nat, Known>, roster: seq<Member>, updateOk: nat -> bool, clearOk: nat -> bool, u: nat)
    requires Sorted(roster) && u in users
    ensures var result := Swept(users, roster, updateOk, clearOk);
      && result.Keys == users.Keys
      && result[u].discordId == users[u].discordId
      && (forall d :: 0 <= d < |roster| && roster[d].id == users[u].discordId && updateOk(u) ==>
            result[u].roles == CleanRoles(roster[d].roles))
      && (!updateOk(u) || (forall d :: 0 <= d < |roster| ==> roster[d].id != users[u].discordId) ==>
            result[u].roles == if clearOk(u) then [] else users[u].roles)
  {
    hide RolesOf, CleanRoles;
    var id := users[u].discordId;
    if d :| 0 <= d < |roster| && roster[d].id == id {
      RolesOfMember(roster, d);
      assert forall e :: 0 <= e < |roster| && roster[e].id == id ==> e == d;
    } else {
      RolesOfNobody(roster, id);
    }
  }
}
