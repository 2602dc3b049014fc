// Who is in a group, and so may run what it grants: told by users and their roles alone.
module Memberships {
  import opened Access
  import opened AccessGrants
  import opened DefaultGroup
  import opened Roles
  import opened StoreOps
  import opened StoreTidy
  import opened Tables
  import opened Text
  import opened Wrappers

  /** Both queries on group members agree where no member role is blank, as in every tidy store. */
  lemma MembershipsAgree(t: Tables, u: nat, g: nat)
    requires forall role :: (g, role) in t.memberRoles ==> role != ""
    ensures IsMember(t, u, g) <==> InGroup(t, u, g)
  {
    hide InGroup;
    InGroupMeans(t, u, g);
  }

  lemma TidyMemberships(t: Tables, u: nat, g: nat)
    requires Tidy(t)
    ensures IsMember(t, u, g) <==> InGroup(t, u, g)
  {
    hide IsMember, InGroup;
    forall role | (g, role) in t.memberRoles
      ensures role != ""
    {
      assert RoleTidy((g, role).1);
    }
    MembershipsAgree(t, u, g);
  }

  // ----- Changing the members -----

  lemma MembersPut(t: Tables, g: nat, users: set<nat>, roles: set<string>, u: nat, h: nat)
    ensures var t' := t.(memberUsers := Put(t.memberUsers, g, users), memberRoles := Put(t.memberRoles, g, roles));
      IsMember(t', u, h) <==>
        if h == g then u in users || (u in t.users && exists role :: role in t.users[u].roles && role in roles)
        else IsMember(t, u, h)
  {
    hide Put;
    InPut(t.memberUsers, g, users, h, u);
    forall role: string {
      InPut(t.memberRoles, g, roles, h, role);
    }
  }

  /** Replacing the members of a group is done or refused as a whole. Done, its members are the
      listed users and the holders of a listed role, and no other group's members change. */
  lemma MembershipExactness(t: Tables, g: nat, users: seq<int>, roles: seq<string>, u: nat)
    requires u in t.users
    ensures var (t', ok) := ReplaceGroupMembership(t, g, users, roles);
      && (ok <==> || ((forall v :: v in users ==> v <= 0) && (forall r :: r in roles ==> Trim(r) == ""))
                  || (g in t.groups && forall v: nat :: v in users && v > 0 ==> v in t.users))
      && (!ok ==> t' == t)
      && (ok ==> (IsMember(t', u, g) <==> || (u in users && u > 0)
                                          || exists r :: r in roles && Trim(r) != "" && Trim(r) in t.users[u].roles))
      && (forall h: nat :: h != g ==> (IsMember(t', u, h) <==> IsMember(t, u, h)))
  {
    hide CleanIds, CleanRoles, Put, IsMember, Trim, Elems;
    ListedIds(users);
    ListedRoles(roles);
    NoneListed(CleanIds(users));
    NoneListed(CleanRoles(roles));
    var us, rs := Elems(CleanIds(users)), Elems(CleanRoles(roles));
    MembersPut(t, g, us, rs, u, g);
    forall h: nat {
      MembersPut(t, g, us, rs, u, h);
    }
    assert forall r :: r in roles && Trim(r) != "" ==> Trim(r) in rs;
  }

  lemma NoneListed<T>(xs: seq<T>)
    ensures Elems(xs) == {} <==> xs == []
  {
    if xs != [] {
      assert xs[0] in Elems(xs);
    }
  }

  /** Adding one user adds that user, to that group. */
  lemma AddedUser(t: Tables, g: nat, user: nat, u: nat, h: nat)
    ensures var (t', ok) := AddGroupUser(t, g, user);
      && (ok <==> g in t.groups && user in t.users) && (!ok ==> t' == t)
      && (ok ==> (IsMember(t', u, h) <==> IsMember(t, u, h) || (h == g && u == user)))
  {
    var t' := AddGroupUser(t, g, user).0;
    assert t'.users == t.users && t'.memberRoles == t.memberRoles;
    assert AddGroupUser(t, g, user).1 ==> ((h, u) in t'.memberUsers <==> (h, u) in t.memberUsers || (h == g && u == user));
  }

  /** Adding one role adds its holders. */
  lemma AddedRole(t: Tables, g: nat, role: string, u: nat, h: nat)
    ensures var (t', ok) := AddGroupRole(t, g, role);
      && (ok <==> g in t.groups && Trim(role) != "") && (!ok ==> t' == t)
      && (ok ==> (IsMember(t', u, h) <==> IsMember(t, u, h) || (h == g && u in t.users && Trim(role) in t.users[u].roles)))
  {
    hide Trim;
    var t' := AddGroupRole(t, g, role).0;
    assert t'.users == t.users && t'.memberUsers == t.memberUsers;
    assert AddGroupRole(t, g, role).1 ==>
      forall r :: (h, r) in t'.memberRoles <==> (h, r) in t.memberRoles || (h == g && r == Trim(role));
  }

  /** Adding then removing gives the tables back where there was nothing before. */
  lemma RemovedMembers(t: Tables, g: nat, user: nat, role: string, a: nat)
    ensures (g, user) !in t.memberUsers && AddGroupUser(t, g, user).1 ==> RemoveGroupUser(AddGroupUser(t, g, user).0, g, user) == t
    ensures (g, Trim(role)) !in t.memberRoles && AddGroupRole(t, g, role).1 ==> RemoveGroupRole(AddGroupRole(t, g, role).0, g, role) == t
    ensures (a, g) !in t.links && LinkAccountGroup(t, a, g).1 ==>
      (a, g) in LinkAccountGroup(t, a, g).0.links && UnlinkAccountGroup(LinkAccountGroup(t, a, g).0, a, g) == t
    ensures LinkAccountGroup(t, a, g).1 <==> a in t.accounts && g in t.groups
  {
    hide Trim;
  }

  // ----- What membership gives -----

  /** Who may run a command, in every state of the tables. */
  lemma CommandAccess(t: Tables, u: nat, command: string)
    ensures var key := Lower(Trim(command));
      UserCanUseCommand(t, u, command) ==
        if key != "sso" && key != "whoami" then None
        else if forall g :: g in t.groups ==> key !in t.groups[g].commands then Some(true)
        else Some(exists g :: g in t.groups && key in t.groups[g].commands
                    && (|| (g, u) in t.memberUsers
                        || exists role :: (g, role) in t.memberRoles && u in t.users && role in t.users[u].roles))
  {
    hide Trim, Lower;
    var key := Lower(Trim(command));
    KnownCommands(key);
  }

  lemma KnownCommands(key: string)
    ensures key in KNOWN_COMMANDS <==> key == "sso" || key == "whoami"
  {
  }

  lemma GroupsOfMeans(t: Tables, u: nat)
    requires u in t.users
    ensures GroupsOf(t, u) == {} <==>
      forall g :: g in t.groups ==> (g, u) !in t.memberUsers && forall role :: (g, role) in t.memberRoles ==> role !in t.users[u].roles
  {
    if GroupsOf(t, u) == {} {
      forall g | g in t.groups
        ensures !IsMember(t, u, g)
      {
        assert g !in GroupsOf(t, u);
      }
    } else {
      var g :| g in GroupsOf(t, u);
    }
  }

  /** Who is put into Default: exactly the users with no group of their own and no role that is
      a member of one. For everyone else nothing changes. */
  lemma AutoAssignedExactly(t: Tables, u: nat)
    requires GroupsNumbered(t.groups, t.nextGroup) && WellNamed(t.groups)
    requires u in t.users && u > 0
    ensures var t' := EnsureUserInDefaultGroupIfNone(t, u).0;
      var grouped := exists g :: g in t.groups && (|| (g, u) in t.memberUsers
                                                   || exists role :: (g, role) in t.memberRoles && role in t.users[u].roles);
      if grouped then t' == t else InDefault(t', u)
  {
    hide EnsureDefaultGroup, InDefault, EnsureUserInDefaultGroupIfNone;
    AutoAssigned(t, u);
    GroupsOfMeans(t, u);
  }
}
