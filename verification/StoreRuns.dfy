// Every run of store operations: the indexes and references hold, at most one group is named
// Default, and once ensured the default group stays locked.
module StoreRuns {
  import opened DefaultGroup
  import opened Roles
  import opened StoreOps
  import opened StoreSound
  import opened StoreTidy
  import opened Tables
  import opened Text

  datatype UserOp =
    | Upsert(discordId: string, displayName: string, roles: seq<string>)
    | SetRoles(user: nat, roles: seq<string>)
    | SetRevoked(user: nat, revoked: bool)

  datatype AccountOp =
    | Add(username: string, password: string)
    | SetPassword(account: nat, password: string)
    | SetDisabled(account: nat, disabled: bool)
    | Delete(account: nat)
    | SetAccess(account: nat, roles: seq<string>, users: seq<int>, groups: seq<int>)
    | Share(owner: nat, username: string, password: string, aliases: seq<string>,
            users: seq<int>, roles: seq<string>, groups: seq<int>)

  datatype NameOp =
    | NewAlias(text: string, account: nat)
    | DropAlias(text: string, account: nat)
    | NewTag(text: string, account: nat)
    | DropTag(text: string, account: nat)
    | NewCharacter(text: string, account: nat)
    | DropCharacter(text: string, account: nat)

  datatype GroupOp =
    | Create(name: string, description: string, webRole: string, commands: seq<string>)
    | Update(group: nat, name: string, description: string, webRole: string, commands: seq<string>)
    | Drop(group: nat)
    | EnsureDefault
    | EnsureUser(user: nat)

  datatype MemberOp =
    | SetMembers(group: nat, users: seq<int>, roles: seq<string>)
    | SetLinks(group: nat, accounts: seq<int>)
    | AddUser(group: nat, user: nat)
    | RemoveUser(group: nat, user: nat)
    | AddRole(group: nat, role: string)
    | RemoveRole(group: nat, role: string)
    | Link(group: nat, account: nat)
    | Unlink(group: nat, account: nat)

  datatype Op = OnUsers(u: UserOp) | OnAccounts(a: AccountOp) | OnNames(n: NameOp) | OnGroups(g: GroupOp) | OnMembers(m: MemberOp)

  // The tables after an operation, failed or not.

  function UserStep(t: Tables, op: UserOp): Tables {
    match op
    case Upsert(d, n, r) => UpsertUser(t, d, n, r).0
    case SetRoles(u, r) => SetUserRoles(t, u, r)
    case SetRevoked(u, r) => SetUserAccessRevoked(t, u, r).0
  }

  /** Shares come from a stored user. */
  function AccountStep(t: Tables, op: AccountOp): Tables {
    match op
    case Add(n, p) => AddEQAccount(t, n, p).0
    case SetPassword(a, p) => SetEQPassword(t, a, p)
    case SetDisabled(a, d) => SetEQDisabled(t, a, d)
    case Delete(a) => DeleteEQAccount(t, a).0
    case SetAccess(a, r, u, g) => SetAccountAccess(t, a, r, u, g).0
    case Share(o, n, p, al, u, r, g) => if o in t.users then ShareLocalAccount(t, o, n, p, al, u, r, g).0 else t
  }

  function NameStep(t: Tables, op: NameOp): Tables {
    match op
    case NewAlias(x, a) => AddAlias(t, x, a).0
    case DropAlias(x, a) => RemoveAlias(t, x, a).0
    case NewTag(x, a) => AddTag(t, x, a).0
    case DropTag(x, a) => RemoveTag(t, x, a).0
    case NewCharacter(x, a) => AddCharacter(t, x, a).0
    case DropCharacter(x, a) => RemoveCharacter(t, x, a).0
  }

  function GroupStep(t: Tables, op: GroupOp): Tables {
    match op
    case Create(n, d, w, c) => CreateGroup(t, n, d, w, c).0
    case Update(g, n, d, w, c) => UpdateGroupMeta(t, g, n, d, w, c).0
    case Drop(g) => DeleteGroup(t, g).0
    case EnsureDefault => EnsureDefaultGroup(t).0
    case EnsureUser(u) => EnsureUserInDefaultGroupIfNone(t, u).0
  }

  function MemberStep(t: Tables, op: MemberOp): Tables {
    match op
    case SetMembers(g, u, r) => ReplaceGroupMembership(t, g, u, r).0
    case SetLinks(g, a) => ReplaceGroupAccountLinks(t, g, a).0
    case AddUser(g, u) => AddGroupUser(t, g, u).0
    case RemoveUser(g, u) => RemoveGroupUser(t, g, u)
    case AddRole(g, r) => AddGroupRole(t, g, r).0
    case RemoveRole(g, r) => RemoveGroupRole(t, g, r)
    case Link(g, a) => LinkAccountGroup(t, a, g).0
    case Unlink(g, a) => UnlinkAccountGroup(t, a, g)
  }

  function Step(t: Tables, op: Op): Tables {
    match op
    case OnUsers(u) => UserStep(t, u)
    case OnAccounts(a) => AccountStep(t, a)
    case OnNames(n) => NameStep(t, n)
    case OnGroups(g) => GroupStep(t, g)
    case OnMembers(m) => MemberStep(t, m)
  }

  function After(t: Tables, ops: seq<Op>): Tables
    decreases |ops|
  {
    if ops == [] then t else Step(After(t, ops[..|ops| - 1]), ops[|ops| - 1])
  }

  // ----- What every operation keeps -----

  ghost predicate Sound(t: Tables) {
    Valid(t) && WellNamed(t.groups) && Tidy(t)
  }

  /** t' is sound, and no lock of t is gone. */
  ghost predicate StaysSound(t: Tables, t': Tables) {
    Sound(t') && forall d :: LockedAt(t.groups, d) ==> LockedAt(t'.groups, d)
  }

  lemma SameGroupsSound(t: Tables, t': Tables)
    requires Sound(t) && Valid(t') && Tidy(t') && t'.groups == t.groups
    ensures StaysSound(t, t')
  {
    hide Valid, WellNamed, Tidy;
  }

  lemma AccountStepTidy(t: Tables, op: AccountOp)
    requires Valid(t) && RowsTidy(t)
    ensures RowsTidy(AccountStep(t, op))
  {
    hide Valid, RowsTidy, AddEQAccount, SetEQPassword, SetEQDisabled, DeleteEQAccount, SetAccountAccess, ShareLocalAccount;
    match op
    case Add(n, p) => AddAccountTidy(t, n, p);
    case SetPassword(a, p) => PasswordTidy(t, a, p);
    case SetDisabled(a, d) => DisabledTidy(t, a, d);
    case Delete(a) => DeleteAccountTidy(t, a);
    case SetAccess(a, r, u, g) => AccessTidy(t, a, r, u, g);
    case Share(o, n, p, al, u, r, g) => if o in t.users { ShareTidy(t, o, n, p, al, u, r, g); }
  }

  /** Account operations leave members alone. */
  lemma AccountStepTidies(t: Tables, op: AccountOp)
    requires Valid(t) && Tidy(t)
    ensures Tidy(AccountStep(t, op))
  {
    hide Valid, RowsTidy, GroupsTidy, RolesTidy, AccountStep;
    AccountStepTidy(t, op);
    AccountStepKeeps(t, op);
  }

  lemma UserStepTidy(t: Tables, op: UserOp)
    requires Tidy(t)
    ensures Tidy(UserStep(t, op))
  {
    hide RowsTidy, GroupsTidy, RolesTidy, CleanRoles;
    UsersAside(t, op);
    SameTidyRows(t, UserStep(t, op));
  }

  lemma UsersAside(t: Tables, op: UserOp)
    ensures var t' := UserStep(t, op);
      t' == t.(users := t'.users, userIds := t'.userIds, nextUser := t'.nextUser)
  {
    hide CleanRoles;
  }

  lemma NameStepTidy(t: Tables, op: NameOp)
    requires Tidy(t)
    ensures Tidy(NameStep(t, op))
  {
    hide RowsTidy, GroupsTidy, RolesTidy, AddName, RemoveName, AddTagTo, RemoveTagFrom;
    SameTidyRows(t, NameStep(t, op));
  }

  lemma GroupStepTidy(t: Tables, op: GroupOp)
    requires Tidy(t)
    ensures Tidy(GroupStep(t, op))
  {
    hide RowsTidy, CreateGroup, UpdateGroupMeta, EnsureDefaultGroup, GroupsOf, GroupTidy, RoleTidy, IsDefaultGroup;
    GroupsAside(t, op);
    SameTidyRows(t, GroupStep(t, op));
    match op
    case Create(n, d, w, c) => CreateTidy(t, n, d, w, c);
    case Update(g, n, d, w, c) => UpdateTidy(t, g, n, d, w, c);
    case Drop(g) =>
    case EnsureDefault => EnsureTidy(t);
    case EnsureUser(u) => EnsureTidy(t);
  }

  /** Group operations leave accounts, role grants and shares alone, and add no member role. */
  lemma GroupsAside(t: Tables, op: GroupOp)
    ensures var t' := GroupStep(t, op);
      t'.accounts == t.accounts && t'.accessRoles == t.accessRoles && t'.shares == t.shares && t'.memberRoles <= t.memberRoles
  {
    hide EnsureDefaultGroup, EnsureUserInDefaultGroupIfNone, CreateGroup, UpdateGroupMeta, DeleteGroup;
    match op
    case Create(n, d, w, c) => CreateAside(t, n, d, w, c);
    case Update(g, n, d, w, c) => UpdateAside(t, g, n, d, w, c);
    case Drop(g) => DropAside(t, g);
    case EnsureDefault => EnsureAside(t);
    case EnsureUser(u) => EnsureUserAside(t, u);
  }

  lemma DropAside(t: Tables, g: nat)
    ensures var t' := DeleteGroup(t, g).0;
      t'.accounts == t.accounts && t'.accessRoles == t.accessRoles && t'.shares == t.shares && t'.memberRoles <= t.memberRoles
  {
    hide IsDefaultGroup, PutFor;
  }

  lemma EnsureUserAside(t: Tables, user: nat)
    ensures var t' := EnsureUserInDefaultGroupIfNone(t, user).0;
      t' == t.(groups := t'.groups, nextGroup := t'.nextGroup, memberUsers := t'.memberUsers)
  {
    hide EnsureDefaultGroup, GroupsOf;
    EnsureAside(t);
  }

  lemma CreateAside(t: Tables, name: string, description: string, webRole: string, commands: seq<string>)
    ensures var t' := CreateGroup(t, name, description, webRole, commands).0;
      t' == t.(groups := t'.groups, nextGroup := t'.nextGroup)
  {
    hide FindGroup, NormalizeCommands, NormalizeWebRole, NameTaken, IsDefaultGroupName, Trim;
  }

  lemma UpdateAside(t: Tables, g: nat, name: string, description: string, webRole: string, commands: seq<string>)
    ensures var t' := UpdateGroupMeta(t, g, name, description, webRole, commands).0;
      t' == t.(groups := t'.groups)
  {
    hide NormalizeCommands, NormalizeWebRole, NameTaken, IsDefaultGroupName, Trim;
  }

  lemma EnsureAside(t: Tables)
    ensures var t' := EnsureDefaultGroup(t).0;
      t' == t.(groups := t'.groups, nextGroup := t'.nextGroup)
  {
    hide FindGroup, NameTaken, CreateGroup, DefaultGroupDescription;
    CreateAside(t, DEFAULT_GROUP_NAME, DefaultGroupDescription(), "", ["sso", "whoami"]);
  }

  lemma MemberStepTidy(t: Tables, op: MemberOp)
    requires Tidy(t)
    ensures Tidy(MemberStep(t, op))
  {
    hide RowsTidy, GroupsTidy, ReplaceGroupMembership, ReplaceGroupAccountLinks, AddGroupRole, RoleTidy, Trim;
    MembersAside(t, op);
    SameTidyRows(t, MemberStep(t, op));
    match op
    case SetMembers(g, u, r) => MembershipTidy(t, g, u, r);
    case AddRole(g, r) => AddRoleTidy(t, g, r);
    case _ =>
  }

  lemma MembersAside(t: Tables, op: MemberOp)
    ensures var t' := MemberStep(t, op);
      && t' == t.(memberUsers := t'.memberUsers, memberRoles := t'.memberRoles, links := t'.links)
      && (op.SetMembers? || op.AddRole? || t'.memberRoles <= t.memberRoles)
  {
    hide ReplaceGroupMembership, ReplaceGroupAccountLinks, Trim;
    match op
    case SetMembers(g, u, r) => SetMembersAside(t, g, u, r);
    case SetLinks(g, a) => SetLinksAside(t, g, a);
    case _ =>
  }

  lemma SetMembersAside(t: Tables, g: nat, users: seq<int>, roles: seq<string>)
    ensures var t' := ReplaceGroupMembership(t, g, users, roles).0;
      t' == t.(memberUsers := t'.memberUsers, memberRoles := t'.memberRoles)
  {
    hide CleanRoles, CleanIds, Put, Elems;
  }

  lemma SetLinksAside(t: Tables, g: nat, accounts: seq<int>)
    ensures var t' := ReplaceGroupAccountLinks(t, g, accounts).0;
      t' == t.(links := t'.links)
  {
    hide CleanIds, PutFor, Elems;
  }

  lemma UserStepKeeps(t: Tables, op: UserOp)
    requires Valid(t)
    ensures Valid(UserStep(t, op)) && UserStep(t, op).groups == t.groups
  {
    hide Valid, UpsertUser, CleanRoles;
    match op
    case Upsert(d, n, r) => UpsertValid(t, d, n, r);
    case SetRoles(u, r) => if u in t.users { UserUpdateValid(t, u, t.users[u].(roles := CleanRoles(r))); }
    case SetRevoked(u, r) => if u in t.users { UserUpdateValid(t, u, t.users[u].(revoked := r)); }
  }

  lemma AccountStepKeeps(t: Tables, op: AccountOp)
    requires Valid(t)
    ensures Valid(AccountStep(t, op)) && WorldOf(AccountStep(t, op)) == WorldOf(t)
  {
    hide Valid, AddEQAccount, SetEQPassword, SetEQDisabled, DeleteEQAccount, SetAccountAccess, ShareLocalAccount;
    match op
    case Add(n, p) => AddAccountValid(t, n, p);
    case SetPassword(a, p) => PasswordValid(t, a, p);
    case SetDisabled(a, d) => DisabledValid(t, a, d);
    case Delete(a) => DeleteAccountValid(t, a);
    case SetAccess(a, r, u, g) => AccessStepsValid(t, a, r, u, g);
    case Share(o, n, p, al, u, r, g) => if o in t.users { ShareValid(t, o, n, p, al, u, r, g); }
  }

  lemma NameStepKeeps(t: Tables, op: NameOp)
    requires Valid(t)
    ensures Valid(NameStep(t, op)) && NameStep(t, op).groups == t.groups
  {
    hide Valid, AddName, RemoveName, AddTagTo, RemoveTagFrom;
    AliasesValid(t, op.text, op.account);
    TagStepsValid(t, op.text, op.account);
    CharactersValid(t, op.text, op.account);
  }

  lemma GroupStepKeeps(t: Tables, op: GroupOp)
    requires Sound(t)
    ensures StaysSound(t, GroupStep(t, op))
  {
    hide Valid, WellNamed, LockedAt, Tidy, CreateGroup, UpdateGroupMeta, DeleteGroup, EnsureDefaultGroup, EnsureUserInDefaultGroupIfNone;
    ValidGroups(t);
    GroupStepTidy(t, op);
    match op
    case Create(n, d, w, c) => CreateGroupValid(t, n, d, w, c); CreateKeeps(t, n, d, w, c);
    case Update(g, n, d, w, c) => UpdateGroupMetaValid(t, g, n, d, w, c); UpdateKeeps(t, g, n, d, w, c);
    case Drop(g) => DeleteGroupValid(t, g); DeleteKeeps(t, g);
    case EnsureDefault => EnsureValid(t); EnsureKeepsLock(t);
    case EnsureUser(u) => EnsureUserKeeps(t, u);
  }

  lemma MemberStepKeeps(t: Tables, op: MemberOp)
    requires Valid(t)
    ensures Valid(MemberStep(t, op)) && MemberStep(t, op).groups == t.groups
  {
    hide Valid, ReplaceGroupMembership, ReplaceGroupAccountLinks, Trim;
    match op
    case SetMembers(g, u, r) => MembershipValid(t, g, u, r);
    case SetLinks(g, a) => LinksValid(t, g, a);
    case AddUser(g, u) => OneUserValid(t, g, u);
    case RemoveUser(g, u) => OneUserValid(t, g, u);
    case AddRole(g, r) => OneRoleValid(t, g, r);
    case RemoveRole(g, r) => OneRoleValid(t, g, r);
    case Link(g, a) => OneLinkValid(t, g, a);
    case Unlink(g, a) => OneLinkValid(t, g, a);
  }

  lemma EnsureKeepsLock(t: Tables)
    requires GroupsNumbered(t.groups, t.nextGroup) && WellNamed(t.groups)
    ensures var t' := EnsureDefaultGroup(t).0;
      WellNamed(t'.groups) && forall d :: LockedAt(t.groups, d) ==> LockedAt(t'.groups, d)
  {
    hide EnsureDefaultGroup, IsDefaultGroupName;
    DefaultIsTrimmed();
    EnsureLocks(t);
  }

  lemma EnsureUserKeeps(t: Tables, user: nat)
    requires Valid(t) && WellNamed(t.groups)
    ensures var t' := EnsureUserInDefaultGroupIfNone(t, user).0;
      Valid(t') && WellNamed(t'.groups) && forall d :: LockedAt(t.groups, d) ==> LockedAt(t'.groups, d)
  {
    hide Valid, WellNamed, LockedAt, EnsureDefaultGroup, GroupsOf;
    ValidGroups(t);
    EnsureValid(t);
    EnsureKeepsLock(t);
    var (t1, d) := EnsureDefaultGroup(t);
    if d.Some? {
      OneUserValid(t1, d.value, user);
    }
  }

  /** What every operation keeps. */
  lemma StepKeeps(t: Tables, op: Op)
    requires Sound(t)
    ensures StaysSound(t, Step(t, op))
  {
    hide StaysSound, UserStep, AccountStep, NameStep, GroupStep, MemberStep, Valid, WellNamed, Tidy;
    match op
    case OnUsers(u) => UserStepKeeps(t, u); UserStepTidy(t, u); SameGroupsSound(t, UserStep(t, u));
    case OnAccounts(a) => AccountStepKeeps(t, a); AccountStepTidies(t, a); SameGroupsSound(t, AccountStep(t, a));
    case OnNames(n) => NameStepKeeps(t, n); NameStepTidy(t, n); SameGroupsSound(t, NameStep(t, n));
    case OnGroups(g) => GroupStepKeeps(t, g);
    case OnMembers(m) => MemberStepKeeps(t, m); MemberStepTidy(t, m); SameGroupsSound(t, MemberStep(t, m));
  }

  /** Over every run, from any sound state: integrity and the locked group last. */
  lemma {:induction false} RunKeeps(t: Tables, ops: seq<Op>)
    requires Sound(t)
    ensures StaysSound(t, After(t, ops))
  {
    hide Sound, LockedAt, Step;
    if ops != [] {
      RunKeeps(t, ops[..|ops| - 1]);
      StepKeeps(After(t, ops[..|ops| - 1]), ops[|ops| - 1]);
    }
  }

  lemma {:induction false} AfterAppend(t: Tables, ops: seq<Op>, more: seq<Op>)
    ensures After(t, ops + more) == After(After(t, ops), more)
  {
    hide Step;
    if more == [] {
      assert ops + more == ops;
    } else {
      assert (ops + more)[..|ops + more| - 1] == ops + more[..|more| - 1];
      AfterAppend(t, ops, more[..|more| - 1]);
    }
  }

  const ENSURE := OnGroups(EnsureDefault)

  /** In every run from an empty store that ever ensures the default group, there is from
      then on exactly one group named Default in any case, with no web role and both
      commands, whatever else the run does. */
  lemma EnsuredForGood(before: seq<Op>, after: seq<Op>)
    ensures var t := After(EMPTY, before + [ENSURE] + after);
      exists d :: LockedAt(t.groups, d)
  {
    hide Sound, LockedAt, EnsureDefaultGroup;
    EmptyIsSound();
    RunKeeps(EMPTY, before);
    var t0 := After(EMPTY, before);
    EnsureLockedAt(t0);
    var t1, d := EnsureDefaultGroup(t0).0, EnsureDefaultGroup(t0).1.value;
    var ops := before + [ENSURE];
    assert ops[..|ops| - 1] == before;
    RunKeeps(EMPTY, ops);
    RunKeeps(t1, after);
    AfterAppend(EMPTY, ops, after);
    assert LockedAt(After(t1, after).groups, d);
  }

  lemma EnsureLockedAt(t: Tables)
    requires Sound(t)
    ensures EnsureDefaultGroup(t).1.Some? && LockedAt(EnsureDefaultGroup(t).0.groups, EnsureDefaultGroup(t).1.value)
  {
    hide EnsureDefaultGroup, WellNamed;
    ValidGroups(t);
    EnsureLocks(t);
  }

  lemma EmptyIsSound()
    ensures Sound(EMPTY)
  {
    forall a: nat
      ensures RowTidy(RowOf(EMPTY, a))
    {
    }
  }
}
