// The presence tracker: a map from account to its last heartbeat, with entries that expire
// lazily, whenever some call happens to look. The ghost log is the full history of touches
// and clears; every answer is stated against that history, so the lazy deletions cannot be
// told from outside.
module Presence {
  datatype Entry = Entry(character: string, user: nat, lastSeen: int)

  datatype Op =
    | Touched(account: nat, character: string, user: nat)
    | Cleared(account: nat)
    | ClearedUserExcept(user: nat, keep: nat)

  datatype Timed = Timed(at: int, op: Op)

  type Rows = map<nat, Entry>

  /** The entries younger than ttl at time now. */
  function Live(rows: Rows, now: int, ttl: int): Rows {
    map a | a in rows && now - rows[a].lastSeen < ttl :: rows[a]
  }

  /** The rows a clear for `user` sparing `keep` removes. */
  function Others(rows: Rows, user: nat, keep: nat): set<nat> {
    set a | a in rows && rows[a].user == user && a != keep
  }

  function Apply(rows: Rows, e: Timed): Rows {
    match e.op
    case Touched(account, character, user) => rows[account := Entry(character, user, e.at)]
    case Cleared(account) => rows - {account}
    case ClearedUserExcept(user, keep) => rows - Others(rows, user, keep)
  }

  /** The specification: all touches and clears in order, nothing ever expiring. */
  function Recorded(log: seq<Timed>): Rows {
    if log == [] then map[] else Apply(Recorded(log[..|log| - 1]), log[|log| - 1])
  }

  /** An operation ends an account's presence under a user. */
  predicate Ends(op: Op, account: nat, user: nat) {
    match op
    case Touched(b, _, _) => b == account
    case Cleared(b) => b == account
    case ClearedUserExcept(u, keep) => u == user && keep != account
  }

  /** Entry i of the history is a touch of the account that nothing later ends. */
  ghost predicate Stands(log: seq<Timed>, i: nat, account: nat) {
    && i < |log| && log[i].op.Touched? && log[i].op.account == account
    && forall j :: i < j < |log| ==> !Ends(log[j].op, account, log[i].op.user)
  }

  /** The history holds an account by its last touch, when no clear of it, nor of its user
      sparing another account, came later. */
  lemma {:induction false} RecordedMeans(log: seq<Timed>, account: nat)
    ensures account in Recorded(log) <==> exists i: nat :: Stands(log, i, account)
    ensures forall i: nat :: Stands(log, i, account) ==>
      account in Recorded(log) && Recorded(log)[account] == Entry(log[i].op.character, log[i].op.user, log[i].at)
  {
    if log != [] {
      var last := |log| - 1;
      RecordedMeans(log[..last], account);
      forall i: nat | i < last
        ensures Stands(log, i, account) <==> Stands(log[..last], i, account) && !Ends(log[last].op, account, log[i].op.user)
      {
        StandsLast(log, i, account);
      }
      if account in Recorded(log) && !Stands(log, last, account) {
        var i: nat :| Stands(log[..last], i, account);
        assert Stands(log, i, account);
      }
    }
  }

  lemma StandsLast(log: seq<Timed>, i: nat, account: nat)
    requires i < |log| - 1
    ensures var last := |log| - 1;
      Stands(log, i, account) <==> Stands(log[..last], i, account) && !Ends(log[last].op, account, log[i].op.user)
  {
    hide Ends;
    var last := |log| - 1;
    assert forall j :: 0 <= j < last ==> log[..last][j] == log[j];
  }

  /** An account is live exactly while its last touch is younger than the limit and nothing has
      ended it since. */
  lemma LiveMeans(log: seq<Timed>, account: nat, now: int, ttl: int)
    ensures account in Live(Recorded(log), now, ttl) <==> exists i: nat :: Stands(log, i, account) && now - log[i].at < ttl
  {
    hide Recorded, Stands;
    RecordedMeans(log, account);
  }

  /** Times do not decrease, and now is not before the last of them. */
  ghost predicate ClockUpTo(log: seq<Timed>, now: int) {
    && (forall i, j :: 0 <= i < j < |log| ==> log[i].at <= log[j].at)
    && (log != [] ==> log[|log| - 1].at <= now)
  }

  /** The map held agrees with the history from now on. */
  ghost predicate Agrees(rows: Rows, log: seq<Timed>, now: int, ttl: int) {
    forall t :: now <= t ==> Live(rows, t, ttl) == Live(Recorded(log), t, ttl)
  }

  lemma LiveLater(rows: Rows, now: int, t: int, ttl: int)
    requires now <= t
    ensures Live(Live(rows, now, ttl), t, ttl) == Live(rows, t, ttl)
  {
  }

  /** Deleting what has expired by now changes nothing that can be seen later. */
  lemma ExpiryInvisible(rows: Rows, log: seq<Timed>, now: int, ttl: int)
    requires Agrees(rows, log, now, ttl)
    ensures Agrees(Live(rows, now, ttl), log, now, ttl)
  {
    forall t | now <= t
      ensures Live(Live(rows, now, ttl), t, ttl) == Live(Recorded(log), t, ttl)
    {
      LiveLater(rows, now, t, ttl);
    }
  }

  /** A touch or clear acts the same on the map held and on the full history. */
  lemma ApplyAgrees(rows: Rows, log: seq<Timed>, e: Timed, ttl: int)
    requires Agrees(rows, log, e.at, ttl)
    ensures Agrees(Apply(rows, e), log + [e], e.at, ttl)
  {
    assert (log + [e])[..|log|] == log;
    var recorded := Recorded(log);
    forall t | e.at <= t
      ensures Live(Apply(rows, e), t, ttl) == Live(Apply(recorded, e), t, ttl)
    {
      var a, b := Live(rows, t, ttl), Live(recorded, t, ttl);
      assert a == b;
      var a', b' := Live(Apply(rows, e), t, ttl), Live(Apply(recorded, e), t, ttl);
      forall k
        ensures k in a' <==> k in b'
        ensures k in a' && k in b' ==> a'[k] == b'[k]
      {
        assert k in a <==> k in b;
        assert k in a ==> a[k] == b[k];
      }
    }
  }

  lemma AgreesLater(rows: Rows, log: seq<Timed>, now: int, t: int, ttl: int)
    requires Agrees(rows, log, now, ttl) && now <= t
    ensures Agrees(rows, log, t, ttl)
  {
  }

  /** A map holding only live rows holds what the history says is live. */
  lemma LiveIsHeld(rows: Rows, log: seq<Timed>, now: int, ttl: int)
    requires Agrees(rows, log, now, ttl) && rows == Live(rows, now, ttl)
    ensures rows == Live(Recorded(log), now, ttl)
  {
  }

  lemma LiveTwice(rows: Rows, now: int, ttl: int)
    ensures Live(Live(rows, now, ttl), now, ttl) == Live(rows, now, ttl)
  {
  }

  /** The rows left when the clear has dealt with all keys but `rest`. */
  function Remaining(rows: Rows, user: nat, keep: nat, rest: set<nat>): Rows {
    rows - (Others(rows, user, keep) - rest)
  }

  function Removed(rows: Rows, user: nat, keep: nat, rest: set<nat>): nat {
    |Others(rows, user, keep) - rest|
  }

  lemma ClearOne(rows: Rows, user: nat, keep: nat, rest: set<nat>, id: nat)
    requires id in rest && rest <= rows.Keys
    ensures var left := Remaining(rows, user, keep, rest);
      && id in left
      && if left[id].user == user && id != keep
         then Remaining(rows, user, keep, rest - {id}) == left - {id}
              && Removed(rows, user, keep, rest - {id}) == Removed(rows, user, keep, rest) + 1
         else Remaining(rows, user, keep, rest - {id}) == left
              && Removed(rows, user, keep, rest - {id}) == Removed(rows, user, keep, rest)
  {
    var done, others := Others(rows, user, keep) - rest, Others(rows, user, keep);
    if id in others {
      assert others - (rest - {id}) == done + {id};
    } else {
      assert others - (rest - {id}) == done;
    }
  }

  lemma ClearEnds(rows: Rows, user: nat, keep: nat)
    ensures Remaining(rows, user, keep, rows.Keys) == rows && Removed(rows, user, keep, rows.Keys) == 0
    ensures Remaining(rows, user, keep, {}) == rows - Others(rows, user, keep)
    ensures Removed(rows, user, keep, {}) == |Others(rows, user, keep)|
  {
    assert Others(rows, user, keep) - rows.Keys == {};
    assert Others(rows, user, keep) - {} == Others(rows, user, keep);
  }

  datatype SnapshotEntry = SnapshotEntry(account: nat, entry: Entry)

  ghost predicate Lists(out: seq<SnapshotEntry>, rows: Rows) {
    && |out| == |rows|
    && (forall i :: 0 <= i < |out| ==> out[i].account in rows && rows[out[i].account] == out[i].entry)
    && (forall i, j :: 0 <= i < j < |out| ==> out[i].account != out[j].account)
  }

  ghost predicate SortedByAccount(out: seq<SnapshotEntry>) {
    forall i, j :: 0 <= i < j < |out| ==> out[i].account < out[j].account
  }

  class Tracker {
    const ttl: int
    var m: Rows
    ghost var log: seq<Timed>
    ghost var clock: int

    ghost predicate Valid()
      reads this
    {
      ClockUpTo(log, clock) && Agrees(m, log, clock, ttl)
    }

    constructor (ttl: int)
      ensures Valid() && log == [] && this.ttl == ttl
    {
      this.ttl := ttl;
      m, log, clock := map[], [], 0;
    }

    method Touch(account: nat, character: string, user: nat, now: int)
      requires Valid() && clock <= now
      modifies this
      ensures Valid() && clock == now && log == old(log) + [Timed(now, Touched(account, character, user))]
    {
      m := m[account := Entry(character, user, now)];
      ApplyAgrees(old(m), log, Timed(now, Touched(account, character, user)), ttl);
      log, clock := log + [Timed(now, Touched(account, character, user))], now;
    }

    method Clear(account: nat, now: int)
      requires Valid() && clock <= now
      modifies this
      ensures Valid() && clock == now && log == old(log) + [Timed(now, Cleared(account))]
    {
      m := m - {account};
      ApplyAgrees(old(m), log, Timed(now, Cleared(account)), ttl);
      log, clock := log + [Timed(now, Cleared(account))], now;
    }

    /** Removes the user's other entries and counts the ones that were still live. */
    method ClearUserExcept(user: nat, keep: nat, now: int) returns (cleared: nat)
      requires Valid() && clock <= now
      modifies this
      ensures Valid() && clock == now && log == old(log) + [Timed(now, ClearedUserExcept(user, keep))]
      ensures cleared == |Others(Live(Recorded(old(log)), now, ttl), user, keep)|
    {
      hide Agrees, Recorded, Live, Others, Remaining, Removed;
      ExpireLocked(now);
      ghost var live := m;
      LiveIsHeld(live, log, now, ttl);
      ClearEnds(live, user, keep);
      cleared := 0;
      var rest := m.Keys;
      while rest != {}
        invariant rest <= live.Keys
        invariant m == Remaining(live, user, keep, rest)
        invariant cleared == Removed(live, user, keep, rest)
        modifies `m
        decreases |rest|
      {
        var id :| id in rest;
        ClearOne(live, user, keep, rest, id);
        if m[id].user == user && id != keep {
          m := m - {id};
          cleared := cleared + 1;
        }
        rest := rest - {id};
      }
      ApplyAgrees(live, log, Timed(now, ClearedUserExcept(user, keep)), ttl);
      log := log + [Timed(now, ClearedUserExcept(user, keep))];
    }

    method IsBusy(account: nat, now: int) returns (busy: bool)
      requires Valid() && clock <= now
      modifies this
      ensures Valid() && clock == now && log == old(log)
      ensures busy <==> account in Live(Recorded(log), now, ttl)
    {
      ExpireLocked(now);
      busy := account in m && now - m[account].lastSeen < ttl;
      assert Live(m, now, ttl) == Live(Recorded(log), now, ttl);
    }

    method Online(now: int) returns (out: seq<SnapshotEntry>)
      requires Valid() && clock <= now
      modifies this
      ensures Valid() && clock == now && log == old(log)
      ensures Lists(out, Live(Recorded(log), now, ttl))
    {
      ExpireLocked(now);
      out := [];
      var rest := m.Keys;
      while rest != {}
        invariant rest <= m.Keys && |out| + |rest| == |m.Keys|
        invariant forall i :: 0 <= i < |out| ==> out[i].account in m.Keys - rest && m[out[i].account] == out[i].entry
        invariant forall i, j :: 0 <= i < j < |out| ==> out[i].account != out[j].account
        modifies {}
        decreases |rest|
      {
        var id :| id in rest;
        out := out + [SnapshotEntry(id, m[id])];
        rest := rest - {id};
      }
      LiveIsHeld(m, log, now, ttl);
    }

    /** The same entries in account order. */
    method Snapshot(now: int) returns (out: seq<SnapshotEntry>)
      requires Valid() && clock <= now
      modifies this
      ensures Valid() && clock == now && log == old(log)
      ensures Lists(out, Live(Recorded(log), now, ttl)) && SortedByAccount(out)
    {
      var entries := Online(now);
      out := [];
      for n := 0 to |entries|
        invariant SortedByAccount(out) && |out| == n
        invariant forall i :: 0 <= i < |out| ==> out[i] in entries[..n]
        modifies {}
      {
        var at := Position(out, entries[n]) by {
          forall i | 0 <= i < |out|
            ensures out[i].account != entries[n].account
          {
            assert out[i] in entries[..n];
          }
        }
        out := out[..at] + [entries[n]] + out[at..];
      }
      ghost var rows := Live(Recorded(log), now, ttl);
      forall i | 0 <= i < |out|
        ensures out[i].account in rows && rows[out[i].account] == out[i].entry
      {
        assert out[i] in entries;
      }
    }

    method Count(now: int) returns (n: nat)
      requires Valid() && clock <= now
      modifies this
      ensures Valid() && clock == now && log == old(log)
      ensures n == |Live(Recorded(log), now, ttl)|
    {
      ExpireLocked(now);
      n := |m|;
      LiveIsHeld(m, log, now, ttl);
    }

    method ExpireLocked(now: int)
      requires Valid() && clock <= now
      modifies this
      ensures Valid() && clock == now && log == old(log)
      ensures m == Live(old(m), now, ttl) == Live(m, now, ttl)
    {
      hide Agrees, Recorded;
      var rest := m.Keys;
      ghost var start := m;
      while rest != {}
        invariant rest <= m.Keys <= start.Keys
        invariant forall a :: a in m ==> m[a] == start[a]
        invariant forall a :: a in start && a !in rest ==> (a in m <==> now - start[a].lastSeen < ttl)
        modifies `m
        decreases |rest|
      {
        var id :| id in rest;
        if now - m[id].lastSeen >= ttl {
          m := m - {id};
        }
        rest := rest - {id};
      }
      assert forall a :: a in m <==> a in start && now - start[a].lastSeen < ttl;
      assert m == Live(start, now, ttl);
      LiveTwice(start, now, ttl);
      AgreesLater(start, log, clock, now, ttl);
      ExpiryInvisible(start, log, now, ttl);
      clock := now;
    }
  }

  /** Where an entry belongs in a sorted list. */
  method Position(out: seq<SnapshotEntry>, e: SnapshotEntry) returns (at: nat)
    requires SortedByAccount(out)
    requires forall i :: 0 <= i < |out| ==> out[i].account != e.account
    ensures at <= |out|
    ensures forall i :: 0 <= i < at ==> out[i].account < e.account
    ensures forall i :: at <= i < |out| ==> e.account < out[i].account
  {
    at := 0;
    while at < |out| && out[at].account < e.account
      invariant at <= |out|
      invariant forall i :: 0 <= i < at ==> out[i].account < e.account
    {
      at := at + 1;
    }
  }
}
