// How many accounts one user can have online when heartbeats race. A heartbeat clears the
// user's other accounts and then touches its own in two separate critical sections, so
// handlers of the same user interleave between them.
module SingleBox {
  import opened Presence

  type Handler = nat

  /** A heartbeat between its two critical sections. */
  datatype Pending = Pending(account: nat, character: string)

  datatype Hub = Hub(rows: Rows, users: map<Handler, nat>, pending: map<Handler, Pending>)

  datatype Step =
    | Connect(h: Handler, user: nat)
    | Disconnect(h: Handler)
    | HeartbeatClear(h: Handler, account: nat, character: string)
    | HeartbeatTouch(h: Handler, now: int)
    | Offline(account: nat)
    | LoginClear(h: Handler, chosen: nat)
    | Expire(now: int, ttl: int)

  const INITIAL := Hub(map[], map[], map[])

  /** The handlers connected for a user. */
  function HandlersOf(s: Hub, user: nat): set<Handler> {
    set h | h in s.users && s.users[h] == user
  }

  /** The accounts the tracker shows for a user, expired or not. */
  function OnlineOf(s: Hub, user: nat): set<nat> {
    set a | a in s.rows && s.rows[a].user == user
  }

  function PendingHandlers(s: Hub, user: nat): set<Handler> {
    set h | h in s.pending && h in s.users && s.users[h] == user
  }

  /** The accounts a user's unfinished heartbeats are about to touch. */
  function PendingOf(s: Hub, user: nat): set<nat> {
    set h | h in PendingHandlers(s, user) :: s.pending[h].account
  }

  /** `limit` bounds the connections each user has at any one time. */
  predicate Enabled(s: Hub, step: Step, limit: nat) {
    match step
    case Connect(h, user) => h !in s.users && |HandlersOf(s, user)| < limit
    case Disconnect(h) => h in s.users && h !in s.pending
    case HeartbeatClear(h, _, _) => h in s.users && h !in s.pending
    case HeartbeatTouch(h, _) => h in s.pending && h in s.users
    case Offline(_) => true
    case LoginClear(h, _) => h in s.users && h !in s.pending
    case Expire(_, _) => true
  }

  function After(s: Hub, step: Step, limit: nat): Hub
    requires Enabled(s, step, limit)
  {
    match step
    case Connect(h, user) => s.(users := s.users[h := user])
    case Disconnect(h) => s.(users := s.users - {h})
    case HeartbeatClear(h, account, character) =>
      s.(rows := s.rows - Others(s.rows, s.users[h], account),
         pending := s.pending[h := Pending(account, character)])
    case HeartbeatTouch(h, now) =>
      var p := s.pending[h];
      s.(rows := s.rows[p.account := Entry(p.character, s.users[h], now)], pending := s.pending - {h})
    case Offline(account) => s.(rows := s.rows - {account})
    case LoginClear(h, chosen) => s.(rows := s.rows - Others(s.rows, s.users[h], chosen))
    case Expire(now, ttl) => s.(rows := Live(s.rows, now, ttl))
  }

  ghost predicate IsRun(schedule: seq<Step>, limit: nat, s: Hub) {
    if schedule == [] then s == INITIAL
    else
      var last := |schedule| - 1;
      exists before :: IsRun(schedule[..last], limit, before)
                    && Enabled(before, schedule[last], limit) && s == After(before, schedule[last], limit)
  }

  /** Online and about to be online: the set that never outgrows the limit. */
  ghost predicate Inv(s: Hub, limit: nat) {
    && (forall h :: h in s.pending ==> h in s.users)
    && forall user: nat :: |HandlersOf(s, user)| <= limit && |OnlineOf(s, user) + PendingOf(s, user)| <= limit
  }

  lemma SubsetSmaller(a: set<nat>, b: set<nat>)
    requires a <= b
    ensures |a| <= |b|
  {
    assert b == a + (b - a);
  }

  /** A map's image is no larger than its domain. */
  lemma {:induction false} ImageSmaller(pending: map<Handler, Pending>, hs: set<Handler>)
    requires hs <= pending.Keys
    ensures |set h | h in hs :: pending[h].account| <= |hs|
  {
    var image := set h | h in hs :: pending[h].account;
    if hs == {} {
      assert image == {};
    } else {
      var h :| h in hs;
      var rest := set k | k in hs - {h} :: pending[k].account;
      assert image == rest + {pending[h].account};
      ImageSmaller(pending, hs - {h});
    }
  }

  lemma PendingBounded(s: Hub, user: nat, limit: nat)
    requires |HandlersOf(s, user)| <= limit
    ensures |PendingOf(s, user)| <= limit
  {
    ImageSmaller(s.pending, PendingHandlers(s, user));
    SubsetSmaller(PendingHandlers(s, user), HandlersOf(s, user));
  }

  /** A step that adds nothing to a user's union keeps the bound. */
  lemma UnionShrinks(s: Hub, t: Hub, user: nat)
    requires OnlineOf(t, user) + PendingOf(t, user) <= OnlineOf(s, user) + PendingOf(s, user)
    ensures |OnlineOf(t, user) + PendingOf(t, user)| <= |OnlineOf(s, user) + PendingOf(s, user)|
  {
    SubsetSmaller(OnlineOf(t, user) + PendingOf(t, user), OnlineOf(s, user) + PendingOf(s, user));
  }

  /** Clearing leaves only what some handler of the user is about to touch. */
  lemma ClearOwnAccounts(s: Hub, h: Handler, account: nat, character: string, limit: nat)
    requires Inv(s, limit) && Enabled(s, HeartbeatClear(h, account, character), limit)
    ensures var t := After(s, HeartbeatClear(h, account, character), limit);
      |OnlineOf(t, s.users[h]) + PendingOf(t, s.users[h])| <= limit
  {
    var user, t := s.users[h], After(s, HeartbeatClear(h, account, character), limit);
    assert h in PendingHandlers(t, user) && t.pending[h].account == account;
    assert account in PendingOf(t, user);
    assert OnlineOf(t, user) <= {account};
    assert OnlineOf(t, user) + PendingOf(t, user) == PendingOf(t, user);
    assert HandlersOf(t, user) == HandlersOf(s, user);
    PendingBounded(t, user, limit);
  }

  /** It leaves the other users' accounts alone. */
  lemma ClearOtherUser(s: Hub, h: Handler, account: nat, character: string, limit: nat, user: nat)
    requires Inv(s, limit) && Enabled(s, HeartbeatClear(h, account, character), limit) && s.users[h] != user
    ensures var t := After(s, HeartbeatClear(h, account, character), limit);
      OnlineOf(t, user) == OnlineOf(s, user) && PendingOf(t, user) == PendingOf(s, user)
  {
    var t := After(s, HeartbeatClear(h, account, character), limit);
    assert PendingHandlers(t, user) == PendingHandlers(s, user);
    assert forall k :: k in PendingHandlers(s, user) ==> t.pending[k] == s.pending[k];
  }

  /** Touching moves an account from pending to online. */
  lemma TouchKeepsUnion(s: Hub, h: Handler, now: int, limit: nat, user: nat)
    requires Inv(s, limit) && Enabled(s, HeartbeatTouch(h, now), limit)
    ensures var t := After(s, HeartbeatTouch(h, now), limit);
      |OnlineOf(t, user) + PendingOf(t, user)| <= limit
  {
    var t, account := After(s, HeartbeatTouch(h, now), limit), s.pending[h].account;
    assert PendingHandlers(t, user) <= PendingHandlers(s, user);
    assert PendingOf(t, user) <= PendingOf(s, user);
    if s.users[h] == user {
      assert h in PendingHandlers(s, user) && account in PendingOf(s, user);
      assert OnlineOf(t, user) <= OnlineOf(s, user) + {account};
    } else {
      assert OnlineOf(t, user) <= OnlineOf(s, user);
    }
    UnionShrinks(s, t, user);
  }

  /** Every other step at most removes rows or changes who is connected. */
  lemma RestKeepsUnion(s: Hub, step: Step, limit: nat, user: nat)
    requires Inv(s, limit) && Enabled(s, step, limit) && !step.HeartbeatClear? && !step.HeartbeatTouch?
    ensures var t := After(s, step, limit); |OnlineOf(t, user) + PendingOf(t, user)| <= limit
  {
    var t := After(s, step, limit);
    assert PendingHandlers(t, user) == PendingHandlers(s, user);
    assert PendingOf(t, user) == PendingOf(s, user);
    assert OnlineOf(t, user) <= OnlineOf(s, user);
    UnionShrinks(s, t, user);
  }

  lemma HandlersBounded(s: Hub, step: Step, limit: nat, user: nat)
    requires |HandlersOf(s, user)| <= limit && Enabled(s, step, limit)
    ensures |HandlersOf(After(s, step, limit), user)| <= limit
  {
    var t := After(s, step, limit);
    if step.Connect? && step.user == user {
      assert HandlersOf(t, user) == HandlersOf(s, user) + {step.h};
    } else {
      SubsetSmaller(HandlersOf(t, user), HandlersOf(s, user));
    }
  }

  lemma StepKeepsInv(s: Hub, step: Step, limit: nat)
    requires Inv(s, limit) && Enabled(s, step, limit)
    ensures Inv(After(s, step, limit), limit)
  {
    hide HandlersOf, OnlineOf, PendingOf;
    var t := After(s, step, limit);
    forall user: nat
      ensures |HandlersOf(t, user)| <= limit && |OnlineOf(t, user) + PendingOf(t, user)| <= limit
    {
      HandlersBounded(s, step, limit, user);
      match step
      case HeartbeatClear(h, account, character) =>
        if s.users[h] == user {
          ClearOwnAccounts(s, h, account, character, limit);
        } else {
          ClearOtherUser(s, h, account, character, limit, user);
        }
      case HeartbeatTouch(h, now) => TouchKeepsUnion(s, h, now, limit, user);
      case _ => RestKeepsUnion(s, step, limit, user);
    }
  }

  lemma {:induction false} RunKeepsInv(schedule: seq<Step>, limit: nat, s: Hub)
    requires IsRun(schedule, limit, s)
    ensures Inv(s, limit)
  {
    if schedule == [] {
      forall user: nat
        ensures |HandlersOf(s, user)| <= limit && |OnlineOf(s, user) + PendingOf(s, user)| <= limit
      {
        assert HandlersOf(s, user) == {} && OnlineOf(s, user) + PendingOf(s, user) == {};
      }
    } else {
      var last := |schedule| - 1;
      var before :| IsRun(schedule[..last], limit, before)
                 && Enabled(before, schedule[last], limit) && s == After(before, schedule[last], limit);
      RunKeepsInv(schedule[..last], limit, before);
      StepKeepsInv(before, schedule[last], limit);
    }
  }

  /** In every run, a user with at most `limit` simultaneous connections never has more than
      `limit` accounts online. */
  lemma OnlineBounded(schedule: seq<Step>, limit: nat, s: Hub, user: nat)
    requires IsRun(schedule, limit, s)
    ensures |OnlineOf(s, user)| <= limit
  {
    RunKeepsInv(schedule, limit, s);
    SubsetSmaller(OnlineOf(s, user), OnlineOf(s, user) + PendingOf(s, user));
  }

  /** With one connection per user, a finished heartbeat leaves exactly its own account. */
  lemma SingleConnectionSingleBox(schedule: seq<Step>, s: Hub, h: Handler, now: int)
    requires IsRun(schedule, 1, s) && Enabled(s, HeartbeatTouch(h, now), 1)
    ensures OnlineOf(After(s, HeartbeatTouch(h, now), 1), s.users[h]) == {s.pending[h].account}
  {
    var t, account := After(s, HeartbeatTouch(h, now), 1), s.pending[h].account;
    RunKeepsInv(schedule, 1, s);
    StepKeepsInv(s, HeartbeatTouch(h, now), 1);
    var online := OnlineOf(t, s.users[h]);
    assert account in online;
    SubsetSmaller(online, online + PendingOf(t, s.users[h]));
    assert online == {account} by {
      assert |online - {account}| == |online| - 1;
    }
  }

  // ----- The bound is reached -----

  lemma NoSteps(limit: nat)
    ensures IsRun([], limit, INITIAL)
  {
  }

  lemma Then(schedule: seq<Step>, limit: nat, s: Hub, step: Step) returns (longer: seq<Step>, t: Hub)
    requires IsRun(schedule, limit, s) && Enabled(s, step, limit)
    ensures IsRun(longer, limit, t) && t == After(s, step, limit)
  {
    longer, t := schedule + [step], After(s, step, limit);
    assert longer[..|schedule|] == schedule;
  }

  /** After k of n handlers have connected and cleared, each for an account of its own. */
  ghost predicate AllPending(s: Hub, n: nat) {
    && s.rows == map[]
    && s.users.Keys == s.pending.Keys
    && (forall h: Handler :: h in s.users <==> h < n)
    && forall h: Handler :: h < n ==> s.users[h] == 0 && s.pending[h].account == h
  }

  lemma HandlersBelow(s: Hub, n: nat)
    requires forall h: Handler :: h in s.users <==> h < n
    requires forall h: Handler :: h < n ==> s.users[h] == 0
    ensures |HandlersOf(s, 0)| == n
  {
    assert HandlersOf(s, 0) == Below(n);
  }

  function Below(n: nat): (r: set<nat>)
    ensures |r| == n && forall a: nat :: a in r <==> a < n
  {
    if n == 0 then {} else Below(n - 1) + {n - 1}
  }

  lemma {:induction false} ClearFirst(n: nat, limit: nat) returns (schedule: seq<Step>, s: Hub)
    requires n <= limit
    ensures IsRun(schedule, limit, s) && AllPending(s, n)
  {
    hide IsRun;
    if n == 0 {
      schedule, s := [], INITIAL;
      NoSteps(limit);
    } else {
      schedule, s := ClearFirst(n - 1, limit);
      HandlersBelow(s, n - 1);
      schedule, s := Then(schedule, limit, s, Connect(n - 1, 0));
      schedule, s := Then(schedule, limit, s, HeartbeatClear(n - 1, n - 1, ""));
    }
  }

  /** The first k of n handlers have touched. */
  ghost predicate Touched(s: Hub, n: nat, k: nat) {
    && (forall h: Handler :: h in s.users <==> h < n)
    && (forall h: Handler :: h in s.pending <==> k <= h < n)
    && (forall h: Handler :: h < n ==> s.users[h] == 0)
    && (forall h: Handler :: k <= h < n ==> s.pending[h].account == h)
    && (forall a: nat :: a in s.rows <==> a < k)
    && (forall a: nat :: a < k ==> s.rows[a].user == 0)
  }

  lemma {:induction false} TouchNext(n: nat, k: nat) returns (schedule: seq<Step>, s: Hub)
    requires k <= n
    ensures IsRun(schedule, n, s) && Touched(s, n, k)
  {
    hide IsRun;
    if k == 0 {
      schedule, s := ClearFirst(n, n);
    } else {
      schedule, s := TouchNext(n, k - 1);
      schedule, s := Then(schedule, n, s, HeartbeatTouch(k - 1, 0));
    }
  }

  /** For every limit there is a run that reaches it: all handlers clear, then all touch. So
      a single box is guaranteed only to users with a single connection. */
  lemma BoundIsReached(limit: nat) returns (schedule: seq<Step>, s: Hub)
    ensures IsRun(schedule, limit, s) && |OnlineOf(s, 0)| == limit
  {
    hide IsRun;
    schedule, s := TouchNext(limit, limit);
    assert OnlineOf(s, 0) == Below(limit);
  }
}
