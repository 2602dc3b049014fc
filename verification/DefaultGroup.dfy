// The locked Default group: at most one in every state, exactly one with fixed permissions
// once ensured, and what that means for slash commands.
module DefaultGroup {
  import opened StoreOps
  import opened Tables
  import opened Text
  import opened Wrappers

  type Groups = map<nat, Group>

  ghost predicate NamesTrimmed(groups: Groups) {
    forall g :: g in groups ==> IsTrimmed(groups[g].name) && groups[g].name != ""
  }

  ghost predicate AtMostOneDefault(groups: Groups) {
    forall g, h :: g in groups && h in groups && IsDefaultGroupName(groups[g].name) && IsDefaultGroupName(groups[h].name) ==> g == h
  }

  ghost predicate WellNamed(groups: Groups) {
    NamesTrimmed(groups) && AtMostOneDefault(groups)
  }

  /** Group d is the one default, with its fixed name and permissions. */
  ghost predicate LockedAt(groups: Groups, d: nat) {
    && d in groups
    && groups[d].name == DEFAULT_GROUP_NAME && groups[d].webRole == "" && groups[d].commands == KNOWN_COMMANDS
    && forall g :: g in groups && g != d ==> !IsDefaultGroupName(groups[g].name)
  }

  lemma DefaultIsTrimmed()
    ensures Trim(DEFAULT_GROUP_NAME) == DEFAULT_GROUP_NAME && IsTrimmed(DEFAULT_GROUP_NAME)
    ensures IsDefaultGroupName(DEFAULT_GROUP_NAME)
  {
    TrimOfTrimmed(DEFAULT_GROUP_NAME);
  }

  lemma TrimmedDefault(name: string)
    requires IsTrimmed(name)
    ensures IsDefaultGroupName(name) <==> Lower(name) == Lower(DEFAULT_GROUP_NAME)
  {
    TrimOfTrimmed(name);
  }

  /** The lookup finds a group of that name, ignoring case, exactly when there is one. */
  lemma {:induction false} GroupFromIs(groups: Groups, key: string, from: nat, upTo: nat)
    ensures match GroupFrom(groups, key, from, upTo)
      case None => forall g :: g in groups && from <= g < upTo ==> Lower(groups[g].name) != key
      case Some(g) => g in groups && from <= g < upTo && Lower(groups[g].name) == key
    decreases upTo - from
  {
    hide Lower;
    if from < upTo && !(from in groups && Lower(groups[from].name) == key) {
      GroupFromIs(groups, key, from + 1, upTo);
    }
  }

  lemma FindGroupIs(t: Tables, name: string)
    requires GroupsNumbered(t.groups, t.nextGroup)
    ensures match FindGroup(t, name)
      case None => Trim(name) == "" || forall g :: g in t.groups ==> Lower(t.groups[g].name) != Lower(Trim(name))
      case Some(g) => g in t.groups && Lower(t.groups[g].name) == Lower(Trim(name)) && g > 0
  {
    hide Lower, Trim;
    GroupFromIs(t.groups, Lower(Trim(name)), 1, t.nextGroup);
  }

  /** Looking up the default name answers whether there is a default group. */
  lemma FindDefault(t: Tables)
    requires GroupsNumbered(t.groups, t.nextGroup) && NamesTrimmed(t.groups)
    ensures match FindGroup(t, DEFAULT_GROUP_NAME)
      case None => forall g :: g in t.groups ==> !IsDefaultGroupName(t.groups[g].name)
      case Some(g) => g in t.groups && IsDefaultGroupName(t.groups[g].name)
  {
    hide Lower, Trim, FindGroup, IsDefaultGroupName;
    DefaultIsTrimmed();
    FindGroupIs(t, DEFAULT_GROUP_NAME);
    forall g | g in t.groups
      ensures IsDefaultGroupName(t.groups[g].name) <==> Lower(t.groups[g].name) == Lower(DEFAULT_GROUP_NAME)
    {
      TrimmedDefault(t.groups[g].name);
    }
  }

  // ----- Each group operation -----

  lemma CreateKeeps(t: Tables, name: string, description: string, webRole: string, commands: seq<string>)
    requires GroupsNumbered(t.groups, t.nextGroup) && WellNamed(t.groups)
    ensures var t' := CreateGroup(t, name, description, webRole, commands).0;
      && WellNamed(t'.groups)
      && forall d :: LockedAt(t.groups, d) ==> LockedAt(t'.groups, d)
  {
    hide Trim, FindGroup, NormalizeWebRole, NormalizeCommands, IsDefaultGroupName;
    TrimTrims(name);
    SameTrimmedName(name);
    DefaultIsTrimmed();
    FindDefault(t);
  }

  lemma SameTrimmedName(name: string)
    ensures IsDefaultGroupName(Trim(name)) <==> IsDefaultGroupName(name)
  {
    TrimTrims(name);
    TrimOfTrimmed(Trim(name));
  }

  /** The row an update writes: the locked one for the default group, else not a default. */
  lemma UpdateWrites(t: Tables, g: nat, name: string, description: string, webRole: string, commands: seq<string>)
    requires WellNamed(t.groups)
    ensures var t' := UpdateGroupMeta(t, g, name, description, webRole, commands).0;
      t'.groups == t.groups ||
      (&& g in t.groups && g in t'.groups && t'.groups == t.groups[g := t'.groups[g]]
       && var row := t'.groups[g];
          if IsDefaultGroupName(t.groups[g].name)
          then row.name == DEFAULT_GROUP_NAME && row.webRole == "" && row.commands == KNOWN_COMMANDS
          else IsTrimmed(row.name) && row.name != "" && !IsDefaultGroupName(row.name))
  {
    DefaultPermissions();
    TrimTrims(name);
    hide Trim, IsDefaultGroupName, IsTrimmed, NormalizeWebRole, NormalizeCommands, NameTaken;
  }

  lemma UpdateKeeps(t: Tables, g: nat, name: string, description: string, webRole: string, commands: seq<string>)
    requires WellNamed(t.groups)
    ensures var t' := UpdateGroupMeta(t, g, name, description, webRole, commands).0;
      && WellNamed(t'.groups) && t'.groups.Keys == t.groups.Keys
      && forall d :: LockedAt(t.groups, d) ==> LockedAt(t'.groups, d)
  {
    hide Trim, IsDefaultGroupName, IsTrimmed, UpdateGroupMeta;
    DefaultIsTrimmed();
    UpdateWrites(t, g, name, description, webRole, commands);
    var t' := UpdateGroupMeta(t, g, name, description, webRole, commands).0;
    assert t'.groups.Keys == t.groups.Keys;
  }

  lemma DefaultPermissions()
    ensures NormalizeWebRole("") == Some("") && NormalizeCommands(["sso", "whoami"]) == Some(KNOWN_COMMANDS)
  {
    assert Lower(Trim("")) == "";
    assert Trim("sso") == "sso" && Trim("whoami") == "whoami" by {
      TrimOfTrimmed("sso");
      TrimOfTrimmed("whoami");
    }
    assert Lower("sso") == "sso" && Lower("whoami") == "whoami";
    assert ["sso", "whoami"][..1] == ["sso"] && ["sso"][..0] == [];
    var none: set<string> := {};
    assert none + {"sso"} == {"sso"};
    assert NormalizeCommands([]) == Some(none);
    assert NormalizeCommands(["sso"]) == Some({"sso"});
    assert {"sso"} + {"whoami"} == KNOWN_COMMANDS;
  }

  lemma DeleteKeeps(t: Tables, g: nat)
    requires WellNamed(t.groups)
    ensures var t' := DeleteGroup(t, g).0;
      && WellNamed(t'.groups)
      && forall d :: LockedAt(t.groups, d) ==> LockedAt(t'.groups, d)
  {
    hide Trim, IsDefaultGroupName;
    DefaultIsTrimmed();
  }

  /** Group d is locked in t', and only group d may differ from t. */
  ghost predicate LocksOnly(t: Tables, t': Tables, d: nat) {
    && LockedAt(t'.groups, d) && WellNamed(t'.groups)
    && t' == t.(groups := t'.groups, nextGroup := t'.nextGroup)
    && (forall g :: g in t.groups && g != d ==> g in t'.groups && t'.groups[g] == t.groups[g])
    && t'.groups.Keys == t.groups.Keys + {d} && GroupsNumbered(t'.groups, t'.nextGroup)
  }

  /** The row a repair writes. */
  lemma SyncWrites(t: Tables, d: nat)
    requires WellNamed(t.groups) && d in t.groups && IsDefaultGroupName(t.groups[d].name)
    ensures var t' := SyncDefaultGroup(t, d);
      && t'.Some? && d in t'.value.groups
      && t'.value == t.(groups := t.groups[d := t'.value.groups[d]])
      && t'.value.groups[d] == Group(DEFAULT_GROUP_NAME, t'.value.groups[d].description, "", KNOWN_COMMANDS)
  {
    hide Trim, IsDefaultGroupName, DefaultGroupDescription, IsTrimmed;
    DefaultIsTrimmed();
    assert !NameTaken(t, DEFAULT_GROUP_NAME, d);
  }

  lemma SyncLocks(t: Tables, d: nat)
    requires GroupsNumbered(t.groups, t.nextGroup) && WellNamed(t.groups)
    requires d in t.groups && IsDefaultGroupName(t.groups[d].name)
    ensures SyncDefaultGroup(t, d).Some? && LocksOnly(t, SyncDefaultGroup(t, d).value, d)
  {
    hide Trim, IsDefaultGroupName, SyncDefaultGroup, IsTrimmed;
    DefaultIsTrimmed();
    SyncWrites(t, d);
    assert SyncDefaultGroup(t, d).value.groups.Keys == t.groups.Keys + {d};
  }

  lemma CreateLocks(t: Tables)
    requires GroupsNumbered(t.groups, t.nextGroup) && WellNamed(t.groups)
    requires FindGroup(t, DEFAULT_GROUP_NAME).None?
    ensures var (t', d) := CreateGroup(t, DEFAULT_GROUP_NAME, DefaultGroupDescription(), "", ["sso", "whoami"]);
      d.Some? && LocksOnly(t, t', d.value)
  {
    hide Trim, IsDefaultGroupName, FindGroup, DefaultGroupDescription;
    DefaultIsTrimmed();
    FindDefault(t);
    DefaultPermissions();
    hide NormalizeWebRole, NormalizeCommands;
    assert !NameTaken(t, DEFAULT_GROUP_NAME, 0);
  }

  /** Ensuring always succeeds and locks the group it returns. */
  lemma EnsureLocks(t: Tables)
    requires GroupsNumbered(t.groups, t.nextGroup) && WellNamed(t.groups)
    ensures var (t', d) := EnsureDefaultGroup(t);
      d.Some? && LocksOnly(t, t', d.value)
  {
    hide IsDefaultGroupName, FindGroup, DefaultGroupDescription, LocksOnly, SyncDefaultGroup, CreateGroup, GroupsNumbered;
    FindDefault(t);
    match FindGroup(t, DEFAULT_GROUP_NAME)
    case Some(g) => SyncLocks(t, g);
    case None => CreateLocks(t);
  }

  // ----- Slash commands -----

  /** With a locked default group the unrestricted branch is dead: a known command is open
      exactly to the members of a group that grants it. */
  lemma CommandAccessIsMembership(t: Tables, d: nat, user: nat, command: string)
    requires LockedAt(t.groups, d)
    ensures var key := Lower(Trim(command));
      UserCanUseCommand(t, user, command) ==
        if key !in KNOWN_COMMANDS then None
        else Some(exists g :: g in t.groups && key in t.groups[g].commands && IsMember(t, user, g))
  {
    hide Trim, IsMember;
    if Lower(Trim(command)) in KNOWN_COMMANDS {
      assert d in t.groups && Lower(Trim(command)) in t.groups[d].commands;
    }
  }

  /** Without it, a command that no group grants is open to everyone. */
  lemma UngrantedCommandIsOpen(t: Tables, user: nat, command: string)
    requires Lower(Trim(command)) in KNOWN_COMMANDS
    requires forall g :: g in t.groups ==> Lower(Trim(command)) !in t.groups[g].commands
    ensures UserCanUseCommand(t, user, command) == Some(true)
  {
    hide Trim, Lower;
  }

  /** A member of the locked group can run every known command. */
  lemma DefaultMemberRuns(t: Tables, d: nat, user: nat, command: string)
    requires LockedAt(t.groups, d) && IsMember(t, user, d) && Lower(Trim(command)) in KNOWN_COMMANDS
    ensures UserCanUseCommand(t, user, command) == Some(true)
  {
    hide Trim, Lower, UserCanUseCommand, IsMember;
    CommandAccessIsMembership(t, d, user, command);
  }

  /** The user is in the locked group and can run every known command. */
  ghost predicate InDefault(t: Tables, user: nat) {
    && (exists d: nat :: LockedAt(t.groups, d) && (d, user) in t.memberUsers)
    && forall command :: Lower(Trim(command)) in KNOWN_COMMANDS ==> UserCanUseCommand(t, user, command) == Some(true)
  }

  lemma JoinsDefault(t: Tables, d: nat, user: nat)
    requires LockedAt(t.groups, d) && (d, user) in t.memberUsers
    ensures InDefault(t, user)
  {
    hide UserCanUseCommand, Lower, Trim, LockedAt;
    forall command | Lower(Trim(command)) in KNOWN_COMMANDS
      ensures UserCanUseCommand(t, user, command) == Some(true)
    {
      DefaultMemberRuns(t, d, user, command);
    }
  }

  /** A user in no group is put into Default, and can then run every known command; a user in
      some group is left alone. */
  lemma AutoAssigned(t: Tables, user: nat)
    requires GroupsNumbered(t.groups, t.nextGroup) && WellNamed(t.groups)
    requires user in t.users && user > 0
    ensures var (t', ok) := EnsureUserInDefaultGroupIfNone(t, user);
      ok && if GroupsOf(t, user) != {} then t' == t else InDefault(t', user)
  {
    hide EnsureDefaultGroup, GroupsOf, InDefault;
    EnsureLocks(t);
    if GroupsOf(t, user) == {} {
      var t', d := EnsureUserInDefaultGroupIfNone(t, user).0, EnsureDefaultGroup(t).1.value;
      JoinsDefault(t', d, user);
    }
  }
}
