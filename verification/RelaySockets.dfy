// Who owns a relay's UDP socket: concurrent relayFor and closeRelay calls on one client,
// with the client's relay field guarded by its mutex and everything else outside it.
module RelaySockets {
  import opened Wrappers

  type Socket = nat
  type Call = nat

  datatype Progress =
    | Looking                  // relayFor before its first critical section
    | Opening                  // found no live relay; resolving and binding
    | Holding(socket: Socket)  // bound a socket, not yet back under the lock
    | Discarding(socket: Socket) // lost the race; about to close its own socket
    | Detaching                // closeRelay before its critical section
    | Closing(socket: Socket)  // closeRelay took the relay away; about to close it

  datatype Client = Client(bound: Socket, closed: set<Socket>, installed: Option<Socket>, calls: map<Call, Progress>)

  datatype Step =
    | StartRelayFor(c: Call)
    | StartClose(c: Call)
    | Look(c: Call)
    | Bind(c: Call, succeeds: bool)
    | Install(c: Call)
    | Discard(c: Call)
    | Detach(c: Call)
    | Close(c: Call)

  const INITIAL := Client(0, {}, None, map[])

  /** The installed relay still has its connection; closing a relay drops it. */
  predicate HasLiveRelay(s: Client) {
    s.installed.Some? && s.installed.value !in s.closed
  }

  predicate Enabled(s: Client, step: Step) {
    match step
    case StartRelayFor(c) => c !in s.calls
    case StartClose(c) => c !in s.calls
    case Look(c) => c in s.calls && s.calls[c].Looking?
    case Bind(c, _) => c in s.calls && s.calls[c].Opening?
    case Install(c) => c in s.calls && s.calls[c].Holding?
    case Discard(c) => c in s.calls && s.calls[c].Discarding?
    case Detach(c) => c in s.calls && s.calls[c].Detaching?
    case Close(c) => c in s.calls && s.calls[c].Closing?
  }

  function After(s: Client, step: Step): Client
    requires Enabled(s, step)
  {
    match step
    case StartRelayFor(c) => s.(calls := s.calls[c := Looking])
    case StartClose(c) => s.(calls := s.calls[c := Detaching])
    case Look(c) =>
      if HasLiveRelay(s) then s.(calls := s.calls - {c}) else s.(calls := s.calls[c := Opening])
    case Bind(c, succeeds) =>
      if !succeeds then s.(calls := s.calls - {c})
      else s.(bound := s.bound + 1, calls := s.calls[c := Holding(s.bound)])
    case Install(c) =>
      var own := s.calls[c].socket;
      if HasLiveRelay(s) then s.(calls := s.calls[c := Discarding(own)])
      else s.(installed := Some(own), calls := s.calls - {c})
    case Discard(c) => s.(closed := s.closed + {s.calls[c].socket}, calls := s.calls - {c})
    case Detach(c) =>
      (match s.installed
       case None => s.(calls := s.calls - {c})
       case Some(socket) => s.(installed := None, calls := s.calls[c := Closing(socket)]))
    case Close(c) => s.(closed := s.closed + {s.calls[c].socket}, calls := s.calls - {c})
  }

  ghost predicate IsRun(schedule: seq<Step>, s: Client) {
    if schedule == [] then s == INITIAL
    else
      var last := |schedule| - 1;
      exists before :: IsRun(schedule[..last], before) && Enabled(before, schedule[last]) && s == After(before, schedule[last])
  }

  predicate Holds(s: Client, c: Call, socket: Socket) {
    c in s.calls && (s.calls[c].Holding? || s.calls[c].Discarding? || s.calls[c].Closing?) && s.calls[c].socket == socket
  }

  /** Each socket ever bound has one owner: the client field, one call, or the past. */
  ghost predicate OneOwner(s: Client, socket: Socket) {
    || (s.installed == Some(socket) && socket !in s.closed && forall c :: !Holds(s, c, socket))
    || (s.installed != Some(socket) && socket in s.closed && forall c :: !Holds(s, c, socket))
    || (s.installed != Some(socket) && socket !in s.closed
        && exists c :: Holds(s, c, socket) && forall d :: Holds(s, d, socket) ==> d == c)
  }

  ghost predicate Inv(s: Client) {
    && (forall socket :: 0 <= socket < s.bound ==> OneOwner(s, socket))
    && (forall socket :: socket in s.closed ==> socket < s.bound)
    && (s.installed.Some? ==> s.installed.value < s.bound)
    && (forall c: Call, socket: Socket :: Holds(s, c, socket) ==> socket < s.bound)
  }

  /** Only the calls entry and at most one socket's whereabouts change in a step. */
  lemma StepKeepsInv(s: Client, step: Step)
    requires Inv(s) && Enabled(s, step)
    ensures Inv(After(s, step))
  {
    var t := After(s, step);
    var c := step.c;
    if c in s.calls && (s.calls[c].Holding? || s.calls[c].Discarding? || s.calls[c].Closing?) {
      assert Holds(s, c, s.calls[c].socket);
    }
    forall d: Call, socket: Socket | Holds(t, d, socket)
      ensures socket < t.bound
    {
      if d != c {
        assert Holds(s, d, socket);
      }
    }
    forall socket: Socket | socket < t.bound
      ensures OneOwner(t, socket)
    {
      if socket < s.bound {
        assert OneOwner(s, socket);
        if Holds(s, c, socket) || Holds(t, c, socket) || s.installed == Some(socket) || t.installed == Some(socket) {
          OwnerMoves(s, step, socket);
        } else {
          OwnerStays(s, step, socket);
        }
      } else {
        assert Holds(t, c, socket);
        assert forall d :: Holds(t, d, socket) && d != c ==> Holds(s, d, socket);
      }
    }
  }

  lemma OwnerStays(s: Client, step: Step, socket: Socket)
    requires Inv(s) && Enabled(s, step) && socket < s.bound
    requires !Holds(s, step.c, socket) && !Holds(After(s, step), step.c, socket)
    requires s.installed != Some(socket) && After(s, step).installed != Some(socket)
    ensures OneOwner(After(s, step), socket)
  {
    var t := After(s, step);
    assert OneOwner(s, socket);
    assert socket in s.closed <==> socket in t.closed;
    assert forall d :: d != step.c ==> (Holds(s, d, socket) <==> Holds(t, d, socket));
    assert forall d :: Holds(s, d, socket) <==> Holds(t, d, socket);
  }

  lemma OwnerMoves(s: Client, step: Step, socket: Socket)
    requires Inv(s) && Enabled(s, step) && socket < s.bound
    requires Holds(s, step.c, socket) || Holds(After(s, step), step.c, socket)
          || s.installed == Some(socket) || After(s, step).installed == Some(socket)
    ensures OneOwner(After(s, step), socket)
  {
    var t, c := After(s, step), step.c;
    assert OneOwner(s, socket);
    if s.installed.Some? {
      assert OneOwner(s, s.installed.value);
    }
    forall d: Call | d != c
      ensures !Holds(s, d, socket) && !Holds(t, d, socket)
    {
      if Holds(s, c, socket) || s.installed == Some(socket) {
        assert !Holds(s, d, socket);
      } else {
        OnlyTaken(s, step, socket);
      }
    }
    OwnerAfter(s, step, socket);
  }

  /** A socket comes to a call or the client field only from that field or that call. */
  lemma OnlyTaken(s: Client, step: Step, socket: Socket)
    requires Enabled(s, step) && socket < s.bound
    requires Holds(After(s, step), step.c, socket) || After(s, step).installed == Some(socket)
    ensures Holds(s, step.c, socket) || s.installed == Some(socket)
  {
  }

  lemma OwnerAfter(s: Client, step: Step, socket: Socket)
    requires Enabled(s, step) && socket < s.bound && OneOwner(s, socket)
    requires s.installed.Some? ==> s.installed.value !in s.closed
    requires Holds(s, step.c, socket) || s.installed == Some(socket)
    requires forall d: Call :: d != step.c ==> !Holds(s, d, socket) && !Holds(After(s, step), d, socket)
    ensures OneOwner(After(s, step), socket)
  {
    var t, c := After(s, step), step.c;
    if Holds(s, c, socket) {
      assert s.installed != Some(socket) && socket !in s.closed;
    } else {
      assert socket !in s.closed;
    }
    if Holds(t, c, socket) {
      assert t.installed != Some(socket) && socket !in t.closed;
      assert Holds(t, c, socket) && forall d :: Holds(t, d, socket) ==> d == c;
    } else {
      assert forall d :: !Holds(t, d, socket);
    }
  }

  lemma {:induction false} RunKeepsInv(schedule: seq<Step>, s: Client)
    requires IsRun(schedule, s)
    ensures Inv(s)
  {
    if schedule != [] {
      var last := |schedule| - 1;
      var before :| IsRun(schedule[..last], before) && Enabled(before, schedule[last]) && s == After(before, schedule[last]);
      RunKeepsInv(schedule[..last], before);
      StepKeepsInv(before, schedule[last]);
    }
  }

  /** In every run, every socket ever bound has exactly one owner. */
  lemma SocketsAreOwned(schedule: seq<Step>, s: Client, socket: Socket)
    requires IsRun(schedule, s) && socket < s.bound
    ensures OneOwner(s, socket)
  {
    RunKeepsInv(schedule, s);
  }

  /** With no call in flight, at most the installed socket is open. */
  lemma QuietMeansAtMostOne(schedule: seq<Step>, s: Client)
    requires IsRun(schedule, s)
    ensures s.calls == map[] ==> forall socket: Socket :: socket < s.bound && socket !in s.closed ==> s.installed == Some(socket)
    ensures forall c :: c in s.calls && (s.calls[c].Discarding? || s.calls[c].Closing?) ==> s.calls[c].socket !in s.closed
    ensures s.installed.Some? ==> HasLiveRelay(s)
  {
    RunKeepsInv(schedule, s);
    forall c | c in s.calls && (s.calls[c].Discarding? || s.calls[c].Closing?)
      ensures s.calls[c].socket !in s.closed
    {
      assert Holds(s, c, s.calls[c].socket);
      assert OneOwner(s, s.calls[c].socket);
    }
    if s.installed.Some? {
      assert OneOwner(s, s.installed.value);
    }
    if s.calls == map[] {
      forall socket: Socket | socket < s.bound && socket !in s.closed
        ensures s.installed == Some(socket)
      {
        assert OneOwner(s, socket);
      }
    }
  }

  /** No step closes a socket that is closed already, and none takes the place of a live relay. */
  lemma StepsAreClean(schedule: seq<Step>, s: Client, step: Step)
    requires IsRun(schedule, s) && Enabled(s, step)
    ensures step.Discard? || step.Close? ==> s.calls[step.c].socket !in s.closed
    ensures s.installed.Some? && After(s, step).installed != s.installed ==> step.Detach?
  {
    QuietMeansAtMostOne(schedule, s);
  }

  // ----- When a disconnect leaves a relay behind -----

  /** A continuation from one state to another. */
  ghost predicate Leads(s: Client, more: seq<Step>, t: Client) {
    if more == [] then t == s
    else
      var last := |more| - 1;
      exists before :: Leads(s, more[..last], before) && Enabled(before, more[last]) && t == After(before, more[last])
  }

  /** Some relayFor has started and may still install. */
  ghost predicate Binding(s: Client) {
    exists d: Call :: d in s.calls && (s.calls[d].Looking? || s.calls[d].Opening? || s.calls[d].Holding?)
  }

  ghost predicate NoneStarts(more: seq<Step>) {
    forall i :: 0 <= i < |more| ==> !more[i].StartRelayFor?
  }

  /** Without a relayFor in flight none appears, and no relay. */
  lemma {:induction false} StaysEmpty(s: Client, more: seq<Step>, t: Client)
    requires Leads(s, more, t) && NoneStarts(more) && s.installed.None? && !Binding(s)
    ensures t.installed.None? && !Binding(t)
  {
    if more != [] {
      var last := |more| - 1;
      var before :| Leads(s, more[..last], before) && Enabled(before, more[last]) && t == After(before, more[last]);
      StaysEmpty(s, more[..last], before);
      assert !more[last].StartRelayFor?;
      StepStaysEmpty(before, more[last]);
    }
  }

  lemma StepStaysEmpty(s: Client, step: Step)
    requires Enabled(s, step) && !step.StartRelayFor? && s.installed.None? && !Binding(s)
    ensures After(s, step).installed.None? && !Binding(After(s, step))
  {
    var t, c := After(s, step), step.c;
    assert c in s.calls ==> !s.calls[c].Looking? && !s.calls[c].Opening? && !s.calls[c].Holding?;
    forall d: Call | d in t.calls
      ensures !t.calls[d].Looking? && !t.calls[d].Opening? && !t.calls[d].Holding?
    {
      if d != c {
        assert d in s.calls && s.calls[d] == t.calls[d];
      }
    }
  }

  lemma Onward(s: Client, more: seq<Step>, t: Client, step: Step) returns (longer: seq<Step>, u: Client)
    requires Leads(s, more, t) && NoneStarts(more) && Enabled(t, step) && !step.StartRelayFor?
    ensures Leads(s, longer, u) && NoneStarts(longer) && u == After(t, step)
  {
    longer, u := more + [step], After(t, step);
    assert longer[..|more|] == more;
  }

  /** A relayFor in flight goes through once nothing is installed. */
  lemma Installs(s: Client, d: Call) returns (more: seq<Step>, t: Client)
    requires d in s.calls && (s.calls[d].Looking? || s.calls[d].Opening? || s.calls[d].Holding?) && s.installed.None?
    requires s.bound !in s.closed && (s.calls[d].Holding? ==> s.calls[d].socket !in s.closed)
    ensures Leads(s, more, t) && NoneStarts(more) && HasLiveRelay(t)
  {
    hide Leads;
    more, t := [], s;
    NowhereYet(s);
    if t.calls[d].Looking? {
      more, t := Onward(s, more, t, Look(d));
    }
    if t.calls[d].Opening? {
      more, t := Onward(s, more, t, Bind(d, true));
    }
    more, t := Onward(s, more, t, Install(d));
  }

  lemma NowhereYet(s: Client)
    ensures Leads(s, [], s)
  {
  }

  /** In every run, a disconnect about to take the relay away can be followed by a live relay,
      although no relayFor starts after it, exactly when some relayFor is in flight: looking,
      opening, or holding a socket not yet installed. */
  lemma LeftBehindExactly(schedule: seq<Step>, s: Client, c: Call)
    requires IsRun(schedule, s) && Enabled(s, Detach(c))
    ensures (exists more, t :: Leads(After(s, Detach(c)), more, t) && NoneStarts(more) && HasLiveRelay(t)) <==> Binding(s)
  {
    hide Leads;
    var after := After(s, Detach(c));
    RunKeepsInv(schedule, s);
    if Binding(s) {
      var d: Call :| d in s.calls && (s.calls[d].Looking? || s.calls[d].Opening? || s.calls[d].Holding?);
      if s.calls[d].Holding? {
        assert Holds(s, d, s.calls[d].socket);
        assert OneOwner(s, s.calls[d].socket);
      }
      var more, t := Installs(after, d);
    } else {
      forall more, t | Leads(after, more, t) && NoneStarts(more)
        ensures !HasLiveRelay(t)
      {
        NotBindingAfter(s, c);
        StaysEmpty(after, more, t);
      }
    }
  }

  lemma NotBindingAfter(s: Client, c: Call)
    requires Enabled(s, Detach(c)) && !Binding(s)
    ensures !Binding(After(s, Detach(c))) && After(s, Detach(c)).installed.None?
  {
    var t := After(s, Detach(c));
    forall d: Call | d in t.calls
      ensures !t.calls[d].Looking? && !t.calls[d].Opening? && !t.calls[d].Holding?
    {
      if d != c {
        assert d in s.calls && s.calls[d] == t.calls[d];
      }
    }
  }

  /** It happens: a run at whose end nothing is in flight, the disconnect has finished, and the
      relay of a relayFor that was in flight is installed and open. */
  lemma DisconnectRace() returns (schedule: seq<Step>, s: Client)
    ensures IsRun(schedule, s) && StartClose(1) in schedule
    ensures s.calls == map[] && s.installed == Some(0) && 0 !in s.closed
  {
    hide IsRun;
    schedule, s := [], INITIAL;
    NoSteps();
    schedule, s := Then(schedule, s, StartRelayFor(0));
    schedule, s := Then(schedule, s, Look(0));
    schedule, s := Then(schedule, s, Bind(0, true));
    schedule, s := Then(schedule, s, StartClose(1));
    assert StartClose(1) in schedule;
    schedule, s := Then(schedule, s, Detach(1));
    schedule, s := Then(schedule, s, Install(0));
  }

  lemma NoSteps()
    ensures IsRun([], INITIAL)
  {
  }

  lemma Then(schedule: seq<Step>, s: Client, step: Step) returns (longer: seq<Step>, t: Client)
    requires IsRun(schedule, s) && Enabled(s, step)
    ensures IsRun(longer, t) && t == After(s, step)
    ensures longer == schedule + [step]
  {
    longer, t := schedule + [step], After(s, step);
    assert longer[..|schedule|] == schedule;
  }
}
