// Who may use an account, told by the tables alone, and what granting one does: every way to an
// open account is a listed grant, and granting touches no other account.
module AccessGrants {
  import opened Access
  import opened Roles
  import opened StoreOps
  import opened Tables
  import opened Text
  import opened Wrappers

  /** A user holds one of the roles. */
  lemma ByRoleMeans(t: Tables, u: nat, a: nat)
    ensures ByRole(t, u, RowOf(t, a)) <==> exists role :: (a, role) in t.accessRoles && u in t.users && role in t.users[u].roles
  {
    hide Of, NamesOf, TagsOf;
    forall role: string {
      InOf(t.accessRoles, a, role);
    }
  }

  lemma InGroupMeans(t: Tables, u: nat, g: nat)
    ensures InGroup(t, u, g) <==>
      || (g, u) in t.memberUsers
      || exists role :: (g, role) in t.memberRoles && role != "" && u in t.users && role in t.users[u].roles
  {
    hide Of;
    forall role: string {
      InOf(t.memberRoles, g, role);
    }
  }

  lemma ByGroupMeans(t: Tables, u: nat, a: nat)
    ensures ByGroup(t, u, RowOf(t, a)) <==> exists g :: (a, g) in t.links && InGroup(t, u, g)
  {
    hide Of, NamesOf, TagsOf, InGroup;
    forall g: nat {
      InOf(t.links, a, g);
    }
  }

  lemma UngrantedMeans(t: Tables, a: nat)
    ensures Ungranted(RowOf(t, a)) <==>
      && (forall role :: (a, role) !in t.accessRoles)
      && (forall u :: (a, u) !in t.accessUsers)
      && (forall g :: (a, g) !in t.links)
  {
    hide Of, NamesOf, TagsOf;
    forall role: string { InOf(t.accessRoles, a, role); }
    forall u: nat { InOf(t.accessUsers, a, u); }
    forall g: nat { InOf(t.links, a, g); }
    var row := RowOf(t, a);
    assert row.roles == {} <==> forall role :: role !in row.roles;
    assert row.users == {} <==> forall u :: u !in row.users;
    assert row.groups == {} <==> forall g :: g !in row.groups;
  }

  /** Who may use an account, in every state of the tables. */
  lemma MayUse(t: Tables, u: nat, a: nat)
    ensures Allowed(t, u, a) <==>
      && a in t.accounts && !t.accounts[a].disabled
      && var byRole := exists role :: (a, role) in t.accessRoles && u in t.users && role in t.users[u].roles;
         var byGroup := exists g :: (a, g) in t.links && InGroup(t, u, g);
         if t.accounts[a].restricted
         then t.accounts[a].owner == Some(u) || (a, u) in t.shares || byRole || byGroup
         else
           || ((forall role :: (a, role) !in t.accessRoles) && (forall v :: (a, v) !in t.accessUsers) && (forall g :: (a, g) !in t.links))
           || (a, u) in t.accessUsers || byRole || byGroup
  {
    hide Of, NamesOf, TagsOf, InGroup, ByRole, ByGroup, Ungranted;
    ByRoleMeans(t, u, a);
    ByGroupMeans(t, u, a);
    UngrantedMeans(t, a);
    InOf(t.shares, a, u);
    InOf(t.accessUsers, a, u);
  }

  // ----- Setting the grants -----

  /** Replacing grants of one kind writes one table. */
  lemma RolesAlone(t: Tables, a: nat, roles: seq<string>)
    ensures var t' := ReplaceAccountRoles(t, a, roles).0; t' == t.(accessRoles := t'.accessRoles)
  {
    hide Put, CleanRoles, Elems;
    if a in t.accounts {
      assert ReplaceAccountRoles(t, a, roles).0 == t.(accessRoles := Put(t.accessRoles, a, Elems(CleanRoles(roles))));
    }
  }

  lemma UsersAlone(t: Tables, a: nat, users: seq<int>)
    ensures var t' := ReplaceAccountUsers(t, a, users).0; t' == t.(accessUsers := t'.accessUsers)
  {
    hide Put, CleanIds, Accepted, Elems;
  }

  lemma SharesAlone(t: Tables, a: nat, users: seq<int>)
    ensures var t' := ReplaceAccountShares(t, a, users).0; t' == t.(shares := t'.shares)
  {
    hide Put, CleanIds, Accepted, Elems, Sharable;
  }

  lemma GroupsAlone(t: Tables, a: nat, groups: seq<int>)
    ensures var t' := ReplaceAccountGroups(t, a, groups).0; t' == t.(links := t'.links)
  {
    hide Put, CleanIds, Accepted, Elems;
  }

  /** Inserting one by one stops at the first unknown id, and not before. */
  lemma {:induction false} AcceptedPrefix(ids: seq<nat>, known: set<nat>, k: nat)
    requires k < |ids|
    ensures k < |Accepted(ids, known)| <==> forall j :: 0 <= j <= k ==> ids[j] in known
    decreases |ids|
  {
    if ids[0] in known && k > 0 {
      AcceptedPrefix(ids[1..], known, k - 1);
      assert forall j :: 0 <= j < |ids| - 1 ==> ids[1..][j] == ids[j + 1];
      assert forall j :: 0 < j <= k ==> ids[j] == ids[1..][j - 1];
    }
  }

  /** Setting an account's grants succeeds exactly when all users and groups named exist, and
      then its row has just these. */
  lemma AccessStep(t: Tables, a: nat, roles: seq<string>, users: seq<int>, groups: seq<int>)
    requires Valid(t) && a in t.accounts
    ensures var (t', ok) := SetAccountAccess(t, a, roles, users, groups);
      && (ok <==> Elems(CleanIds(users)) <= t.users.Keys && Elems(CleanIds(groups)) <= t.groups.Keys)
      && Valid(t')
      && (ok ==> Changes(t, t', a, RowOf(t, a).(roles := Elems(CleanRoles(roles)), users := Elems(CleanIds(users)),
                                                groups := Elems(CleanIds(groups)))))
  {
    hide Valid, RowOf, CleanIds, CleanRoles, Accepted, ReplaceAccountRoles, ReplaceAccountUsers, ReplaceAccountGroups;
    RolesStep(t, a, roles);
    var t1 := ReplaceAccountRoles(t, a, roles).0;
    UsersStep(t1, a, users);
    GroupsStep(ReplaceAccountUsers(t1, a, users).0, a, groups);
  }

  lemma ListedIds(ids: seq<int>)
    ensures forall i: nat :: i in Elems(CleanIds(ids)) <==> i in ids && i > 0
    ensures Elems(CleanIds(ids)) == {} <==> forall i :: i in ids ==> i <= 0
  {
    hide CleanIds;
    CleanIdsAre(ids);
    var clean := Elems(CleanIds(ids));
    assert clean == {} <==> forall i: nat :: i !in clean;
    forall i | i in ids && i > 0
      ensures i in clean
    {
      var id: nat := i;
      assert id in CleanIds(ids);
    }
  }

  lemma ListedRoles(roles: seq<string>)
    ensures forall role :: role in Elems(CleanRoles(roles)) <==> role != "" && exists r :: r in roles && role == Trim(r)
    ensures Elems(CleanRoles(roles)) == {} <==> forall r :: r in roles ==> Trim(r) == ""
  {
    hide CleanRoles, Trim;
    CleanRolesIsClean(roles);
    var clean := Elems(CleanRoles(roles));
    assert clean == {} <==> forall role :: role !in clean;
    forall r | r in roles && Trim(r) != ""
      ensures Trim(r) in clean
    {
      assert Trim(r) in CleanRoles(roles);
    }
  }

  lemma ListedRow(t: Tables, u: nat, row: Row, roles: seq<string>, users: seq<int>, groups: seq<int>)
    requires row.roles == Elems(CleanRoles(roles)) && row.users == Elems(CleanIds(users)) && row.groups == Elems(CleanIds(groups))
    ensures Ungranted(row) <==>
      (forall r :: r in roles ==> Trim(r) == "") && (forall v :: v in users ==> v <= 0) && (forall g :: g in groups ==> g <= 0)
    ensures u in row.users <==> u in users && u > 0
    ensures ByRole(t, u, row) <==> exists r :: r in roles && Trim(r) != "" && u in t.users && Trim(r) in t.users[u].roles
    ensures ByGroup(t, u, row) <==> exists g: nat :: g in groups && g > 0 && InGroup(t, u, g)
  {
    hide CleanIds, CleanRoles, Elems, InGroup, Trim;
    ListedRoles(roles);
    assert forall r :: r in roles && Trim(r) != "" ==> Trim(r) in row.roles;
    ListedIds(users);
    ListedIds(groups);
  }

  /** After it an enabled open account may be used by everyone when nothing was listed, and
      otherwise by the listed users, the holders of a listed role and the members of a listed
      group, and by no one else. A disabled one may be used by nobody, and nobody's access to
      any other account changes. */
  lemma AccessExactness(t: Tables, a: nat, roles: seq<string>, users: seq<int>, groups: seq<int>, u: nat)
    requires Valid(t) && a in t.accounts && SetAccountAccess(t, a, roles, users, groups).1
    ensures var t' := SetAccountAccess(t, a, roles, users, groups).0;
      && (t.accounts[a].disabled ==> !Allowed(t', u, a))
      && (!t.accounts[a].disabled && !t.accounts[a].restricted ==>
            (Allowed(t', u, a) <==>
              || ((forall r :: r in roles ==> Trim(r) == "") && (forall v :: v in users ==> v <= 0) && (forall g :: g in groups ==> g <= 0))
              || (u in users && u > 0)
              || (exists r :: r in roles && Trim(r) != "" && u in t.users && Trim(r) in t.users[u].roles)
              || (exists g: nat :: g in groups && g > 0 && InGroup(t, u, g))))
      && (forall b: nat :: b != a ==> (Allowed(t', u, b) <==> Allowed(t, u, b)))
  {
    hide Valid, RowOf, CleanIds, CleanRoles, SetAccountAccess, InGroup, AllowedByRow;
    AccessStep(t, a, roles, users, groups);
    var t' := SetAccountAccess(t, a, roles, users, groups).0;
    forall b: nat | b != a
      ensures Allowed(t', u, b) <==> Allowed(t, u, b)
    {
      AllowedFrame(t', t, u, RowOf(t, b));
    }
    AccountInRow(t, a);
    OpenRow(t', u, RowOf(t', a));
    SameHolders(t, t', u);
    ListedRow(t', u, RowOf(t', a), roles, users, groups);
  }

  lemma OpenRow(t: Tables, u: nat, row: Row)
    ensures row.account.Some? && row.account.value.disabled ==> !AllowedByRow(t, u, row)
    ensures row.account.Some? && !row.account.value.restricted && !row.account.value.disabled ==>
      (AllowedByRow(t, u, row) <==> Ungranted(row) || u in row.users || ByRole(t, u, row) || ByGroup(t, u, row))
  {
  }

  // ----- Recipients -----

  lemma {:induction false} WithoutOwnerMeans(owner: nat, users: seq<int>)
    ensures forall u :: u in WithoutOwner(owner, users) <==> u in users && u != owner
    decreases |users|
  {
    if users != [] {
      var last := |users| - 1;
      WithoutOwnerMeans(owner, users[..last]);
      assert users == users[..last] + [users[last]];
      assert forall u :: u in users <==> u in users[..last] || u == users[last];
    }
  }

  /** The recipients of a share are the listed users, the owner aside, each once. */
  lemma RecipientsMean(owner: nat, users: seq<int>)
    ensures forall u: nat :: u in Recipients(owner, users) <==> u in users && u > 0 && u != owner
    ensures var r := Recipients(owner, users); forall i, j :: 0 <= i < j < |r| ==> r[i] != r[j]
  {
    hide WithoutOwner, CleanIds;
    WithoutOwnerMeans(owner, users);
    CleanIdsAre(WithoutOwner(owner, users));
  }
}
