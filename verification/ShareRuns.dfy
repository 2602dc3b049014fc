// Notifications over whole runs of shares, and the notice a failed share loses.
module ShareRuns {
  import opened Access
  import opened Roles
  import opened StoreOps
  import opened Tables
  import opened Text
  import opened Wrappers

  datatype Call = Call(owner: nat, username: string, password: string, aliases: seq<string>,
                       users: seq<int>, roles: seq<string>, groups: seq<int>)

  function Share(t: Tables, c: Call): (Tables, Result<Shared, ShareError>) {
    ShareLocalAccount(t, c.owner, c.username, c.password, c.aliases, c.users, c.roles, c.groups)
  }

  function After(t: Tables, calls: seq<Call>): Tables {
    if calls == [] then t else Share(After(t, calls[..|calls| - 1]), calls[|calls| - 1]).0
  }

  /** Every call comes from a stored user; it may succeed or be refused. */
  ghost predicate OwnersKnown(t: Tables, calls: seq<Call>) {
    forall i :: 0 <= i < |calls| ==> calls[i].owner in t.users
  }

  /** How often u was told that account a is now shared with him. */
  ghost function Notices(t: Tables, calls: seq<Call>, a: nat, u: nat): nat {
    if calls == [] then 0
    else
      var result := Share(After(t, calls[..|calls| - 1]), calls[|calls| - 1]).1;
      Notices(t, calls[..|calls| - 1], a, u)
      + if result.Ok? && result.value.account == a && u in result.value.notified then 1 else 0
  }

  /** How often a call took (a, u) out of the shares. */
  ghost function Departures(t: Tables, calls: seq<Call>, a: nat, u: nat): nat {
    if calls == [] then 0
    else
      Departures(t, calls[..|calls| - 1], a, u)
      + if (a, u) in After(t, calls[..|calls| - 1]).shares && (a, u) !in After(t, calls).shares then 1 else 0
  }

  /** Call i is refused and yet puts (a, u) into the shares. */
  ghost predicate RefusedAdds(t: Tables, calls: seq<Call>, i: nat, a: nat, u: nat)
    requires i < |calls|
  {
    var before := After(t, calls[..i]);
    && Share(before, calls[i]).1.Err?
    && (a, u) !in before.shares && (a, u) in Share(before, calls[i]).0.shares
  }

  /** How often that happens. */
  ghost function Unannounced(t: Tables, calls: seq<Call>, a: nat, u: nat): nat {
    if calls == [] then 0
    else Unannounced(t, calls[..|calls| - 1], a, u) + if RefusedAdds(t, calls, |calls| - 1, a, u) then 1 else 0
  }

  function Present(t: Tables, a: nat, u: nat): nat {
    if (a, u) in t.shares then 1 else 0
  }

  /** Over any run of shares, refused ones included: presence at the start, notices and
      unannounced arrivals add up to departures and presence at the end. */
  lemma {:induction false} ArrivalsBalance(t: Tables, calls: seq<Call>, a: nat, u: nat)
    requires Valid(t) && OwnersKnown(t, calls)
    ensures Present(t, a, u) + Notices(t, calls, a, u) + Unannounced(t, calls, a, u)
         == Departures(t, calls, a, u) + Present(After(t, calls), a, u)
    ensures Valid(After(t, calls)) && WorldOf(After(t, calls)) == WorldOf(t)
  {
    hide Valid, ShareLocalAccount, RowOf;
    if calls != [] {
      var last := |calls| - 1;
      ArrivalsBalance(t, calls[..last], a, u);
      var before := After(t, calls[..last]);
      if Share(before, calls[last]).1.Ok? {
        ShareMoves(before, calls[last], a, u);
      } else {
        RefusedKeeps(before, calls[last]);
      }
    }
  }

  lemma ShareMoves(t: Tables, c: Call, a: nat, u: nat)
    requires Valid(t) && c.owner in t.users && Share(t, c).1.Ok?
    ensures var (t', result) := Share(t, c);
      && Valid(t') && WorldOf(t') == WorldOf(t)
      && (result.value.account == a && u in result.value.notified <==> (a, u) in t'.shares && (a, u) !in t.shares)
  {
    hide Valid, ShareLocalAccount, RowOf, Of;
    ShareStep(t, c.owner, c.username, c.password, c.aliases, c.users, c.roles, c.groups);
    NotifiedAreNew(t, c.owner, c.username, c.password, c.aliases, c.users, c.roles, c.groups, u);
    var t' := Share(t, c).0;
    InOf(t.shares, a, u);
    InOf(t'.shares, a, u);
    SharesInRow(t, a);
    SharesInRow(t', a);
  }

  lemma RefusedKeeps(t: Tables, c: Call)
    requires Valid(t) && c.owner in t.users && Share(t, c).1.Err?
    ensures Valid(Share(t, c).0) && WorldOf(Share(t, c).0) == WorldOf(t)
  {
    hide Valid, ShareLocalAccount, RowOf;
    RefusedShareStep(t, c.owner, c.username, c.password, c.aliases, c.users, c.roles, c.groups);
  }

  lemma {:induction false} UnannouncedNone(t: Tables, calls: seq<Call>, a: nat, u: nat)
    ensures Unannounced(t, calls, a, u) == 0 <==> forall i :: 0 <= i < |calls| ==> !RefusedAdds(t, calls, i, a, u)
  {
    hide RefusedAdds;
    if calls != [] {
      var last := |calls| - 1;
      UnannouncedNone(t, calls[..last], a, u);
      forall i | 0 <= i < last
        ensures RefusedAdds(t, calls[..last], i, a, u) <==> RefusedAdds(t, calls, i, a, u)
      {
        SameBefore(t, calls, last, i, a, u);
      }
    }
  }

  lemma SameBefore(t: Tables, calls: seq<Call>, n: nat, i: nat, a: nat, u: nat)
    requires i < n <= |calls|
    ensures RefusedAdds(t, calls[..n], i, a, u) <==> RefusedAdds(t, calls, i, a, u)
  {
    hide Share, After;
    assert calls[..n][..i] == calls[..i];
  }

  /** The notices balance exactly when no refused call of the run added the recipient. */
  lemma NoticesBalance(t: Tables, calls: seq<Call>, a: nat, u: nat)
    requires Valid(t) && OwnersKnown(t, calls)
    ensures Present(t, a, u) + Notices(t, calls, a, u) == Departures(t, calls, a, u) + Present(After(t, calls), a, u)
       <==> forall i :: 0 <= i < |calls| ==> !RefusedAdds(t, calls, i, a, u)
  {
    ArrivalsBalance(t, calls, a, u);
    UnannouncedNone(t, calls, a, u);
  }

  /** A recipient whom a refused share added, for whatever reason it was refused, is told
      neither by it nor by the repaired call, which finds him present. */
  lemma RefusedShareLosesNotices(t: Tables, first: Call, second: Call, a: nat, u: nat)
    requires Valid(t) && first.owner in t.users
    requires Share(t, first).1.Err? && (a, u) !in t.shares && (a, u) in Share(t, first).0.shares
    requires second.owner == first.owner && Trim(second.username) == Trim(first.username)
    requires Share(Share(t, first).0, second).1.Ok?
    ensures var result := Share(Share(t, first).0, second).1;
      result.value.account == a && u !in result.value.notified
  {
    hide Valid, ShareLocalAccount, RowOf, Of, Recipients, Accepted, Sharable, CanShare, SharedAccount, AccountKey;
    var t1, name := Share(t, first).0, Trim(first.username);
    RefusedShareStep(t, first.owner, first.username, first.password, first.aliases, first.users, first.roles, first.groups);
    InOf(t.shares, a, u);
    InOf(t1.shares, a, u);
    SharesInRow(t, a);
    SharesInRow(t1, a);
    assert a == AccountFor(t, name);
    TrimTrims(first.username);
    TrimOfTrimmed(name);
    KeyNotBlank(name);
    TargetIsFound(t1, second);
    ShareMoves(t1, second, a, u);
  }

  lemma TargetIsFound(t: Tables, c: Call)
    requires AccountKey(Trim(c.username)) in t.accountIds && AccountKey(Trim(c.username)) != ""
    requires Share(t, c).1.Ok?
    ensures Share(t, c).1.value.account == t.accountIds[AccountKey(Trim(c.username))]
  {
    hide AccountKey, AddAliases, SetEQPassword, MakeRestricted, ReplaceAccountUsers, ReplaceAccountShares,
         ReplaceAccountRoles, ReplaceAccountGroups, NewRecipients, Recipients;
  }

  // ----- It happens -----

  const ANN := User("1", "Ann", [], false)
  const BEN := User("2", "Ben", [], false)
  const TWO_USERS := EMPTY.(users := map[1 := ANN, 2 := BEN], userIds := map["1" := 1, "2" := 2], nextUser := 3)

  lemma ListOfTwo()
    ensures Recipients(1, [2]) == [2] && Elems<nat>([2]) == {2}
    ensures CleanIds([9]) == [9] && CleanIds([]) == [] && Elems<nat>([9]) == {9} && Elems<nat>([]) == {}
    ensures Accepted([2], {1, 2}) == [2]
  {
    assert [2][..0] == [] && [9][..0] == [];
    assert WithoutOwner(1, [2]) == [2];
    assert CleanIds([2]) == [2];
    assert [2][1..] == [];
  }

  lemma BoxIsFree()
    ensures Trim("box") == "box" && AccountKey("box") == "box" && Trim("pw") == "pw"
    ensures FindAccount(TWO_USERS, "box") == None && Sharable(TWO_USERS) == {1, 2} && Valid(TWO_USERS)
  {
    TrimOfTrimmed("box");
    TrimOfTrimmed("pw");
    assert Lower("box") == "box";
  }

  /** Ann shares with Ben, naming a group that does not exist: the share is refused, Ben is in,
      and the same share without the group does not tell him. */
  lemma LostNotice() returns (first: Call, second: Call)
    ensures Valid(TWO_USERS) && Share(TWO_USERS, first).1 == Err(BadGroup)
    ensures (1, 2) !in TWO_USERS.shares && (1, 2) in Share(TWO_USERS, first).0.shares
    ensures Share(Share(TWO_USERS, first).0, second).1.Ok?
    ensures Notices(TWO_USERS, [first, second], 1, 2) == 0 && (1, 2) in After(TWO_USERS, [first, second]).shares
  {
    hide ShareLocalAccount, Valid, RowOf, Recipients, Accepted, CleanIds, Elems, Trim, AccountKey, Sharable, Of, CleanRoles;
    var t := TWO_USERS;
    first, second := Call(1, "box", "pw", [], [2], [], [9]), Call(1, "box", "pw", [], [2], [], []);
    ListOfTwo();
    BoxIsFree();
    ShareSucceeds(t, 1, "box", "pw", [], [2], [], [9]);
    RefusedShareStep(t, 1, "box", "pw", [], [2], [], [9]);
    var t1 := Share(t, first).0;
    OneRowFacts(t, t1, 1, "box");
    InOf(t1.shares, 1, 2);
    SharesInRow(t1, 1);
    SameSharable(t, t1);
    AccountInRow(t1, 1);
    ShareSucceeds(t1, 1, "box", "pw", [], [2], [], []);
    RefusedShareLosesNotices(t, first, second, 1, 2);
    ShareMoves(t1, second, 1, 2);
    Recipient(t1, second);
    NoticesOfTwo(t, first, second);
  }

  lemma Recipient(t: Tables, c: Call)
    requires Valid(t) && c.owner in t.users && Share(t, c).1.Ok? && 2 in Elems(Recipients(c.owner, c.users))
    ensures (Share(t, c).1.value.account, 2) in Share(t, c).0.shares
  {
    hide ShareLocalAccount, Valid, RowOf, Recipients, Elems, Of;
    ShareStep(t, c.owner, c.username, c.password, c.aliases, c.users, c.roles, c.groups);
    var a := Share(t, c).1.value.account;
    InOf(Share(t, c).0.shares, a, 2);
    SharesInRow(Share(t, c).0, a);
  }

  lemma NoticesOfTwo(t: Tables, first: Call, second: Call)
    requires Share(t, first).1.Err?
    ensures After(t, [first, second]) == Share(Share(t, first).0, second).0
    ensures var result := Share(Share(t, first).0, second).1;
      Notices(t, [first, second], 1, 2) == if result.Ok? && result.value.account == 1 && 2 in result.value.notified then 1 else 0
  {
    hide Share;
    assert [first, second][..1] == [first] && [first][..0] == [];
    assert After(t, [first]) == Share(t, first).0;
    assert Notices(t, [first], 1, 2) == 0;
  }
}
