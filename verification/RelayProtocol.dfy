// Every interleaving of the relay's threads: any number of uplink handlers and the one read
// loop, each critical section or socket operation an atomic step. A log records what became
// visible; the invariant ties the relay record to the log, and the log's properties follow.
module RelayProtocol {
  import opened Bytes
  import opened Wrappers
  import opened Soe
  import opened RelayState

  datatype Event =
    | Received(pkt: seq<byte>)
    | Succeeded(pkt: seq<byte>)
    | Armed(original: seq<byte>)
    | Taken(retry: seq<byte>)
    | Replayed(retry: seq<byte>)
    | Forwarded(pkt: seq<byte>)
    | Sent(out: seq<byte>, armed: bool)

  /** What splicing decided about an uplink packet. */
  datatype Verdict = Drop | AsIs | Splice(body: seq<byte>, retryTyped: bool)

  datatype Uplink =
    | Deciding(pkt: seq<byte>)
    | Wrapping(pkt: seq<byte>, spliced: seq<byte>, retryTyped: bool)
    | Arming(pkt: seq<byte>, out: seq<byte>)
    | Sending(out: seq<byte>, armed: bool)

  datatype Downlink =
    | Waiting
    | Got(pkt: seq<byte>)
    | Noted(pkt: seq<byte>)
    | Judging(pkt: seq<byte>)
    | Replaying(pkt: seq<byte>, retry: seq<byte>)
    | Forwarding(pkt: seq<byte>)

  datatype System = System(relay: State, uplinks: map<nat, Uplink>, loop: Downlink, log: seq<Event>)

  datatype Step =
    | Begin(h: nat, pkt: seq<byte>)
    | Decide(h: nat, verdict: Verdict)
    | Wrap(h: nat)
    | Arm(h: nat)
    | Send(h: nat)
    | Receive(pkt: seq<byte>)
    | NoteCrc
    | NoteSuccess
    | Judge
    | Emit

  const INITIAL := System(FRESH, map[], Waiting, [])

  ghost predicate Enabled(s: System, step: Step) {
    match step
    case Begin(h, pkt) => h !in s.uplinks && pkt != []
    case Decide(h, _) => h in s.uplinks && s.uplinks[h].Deciding?
    case Wrap(h) => h in s.uplinks && s.uplinks[h].Wrapping?
    case Arm(h) => h in s.uplinks && s.uplinks[h].Arming?
    case Send(h) => h in s.uplinks && s.uplinks[h].Sending?
    case Receive(_) => s.loop.Waiting?
    case NoteCrc => s.loop.Got?
    case NoteSuccess => s.loop.Noted?
    case Judge => s.loop.Judging?
    case Emit => s.loop.Replaying? || s.loop.Forwarding?
  }

  /** The state after an enabled step; `rejects` is the text match of a failure reply. */
  ghost function After(s: System, step: Step, rejects: seq<byte> -> bool): System
    requires Enabled(s, step)
  {
    match step
    case Begin(h, pkt) => s.(uplinks := s.uplinks[h := Deciding(pkt)])
    case Decide(h, verdict) =>
      var pkt := s.uplinks[h].pkt;
      (match verdict
       case Drop => s.(uplinks := s.uplinks - {h})
       case AsIs => s.(uplinks := s.uplinks[h := Sending(pkt, false)])
       case Splice(body, retryTyped) => s.(uplinks := s.uplinks[h := Wrapping(pkt, body, retryTyped)]))
    case Wrap(h) =>
      var u := s.uplinks[h];
      var out := Restored(u.spliced, s.relay.crcKey, s.relay.crcBytes);
      s.(uplinks := s.uplinks[h := if u.retryTyped then Arming(u.pkt, out) else Sending(out, false)])
    case Arm(h) =>
      var u := s.uplinks[h];
      System(s.relay.SetFallback(u.pkt), s.uplinks[h := Sending(u.out, true)], s.loop, s.log + [Armed(u.pkt)])
    case Send(h) =>
      var u := s.uplinks[h];
      s.(uplinks := s.uplinks - {h}, log := s.log + [Sent(u.out, u.armed)])
    case Receive(pkt) => s.(loop := Got(pkt), log := s.log + [Received(pkt)])
    case NoteCrc => s.(relay := s.relay.NoteSession(s.loop.pkt), loop := Noted(s.loop.pkt))
    case NoteSuccess =>
      var pkt := s.loop.pkt;
      if SuccessReply(pkt)
      then System(s.relay.ClearFallback(), s.uplinks, Judging(pkt), s.log + [Succeeded(pkt)])
      else s.(loop := Judging(pkt))
    case Judge =>
      var pkt := s.loop.pkt;
      if !FailureReply(pkt, rejects) then s.(loop := Forwarding(pkt))
      else
        (match s.relay.TakeRetry()
         case (relay, None) => s.(relay := relay, loop := Forwarding(pkt))
         case (relay, Some(retry)) =>
           System(relay, s.uplinks, Replaying(pkt, retry), s.log + [Taken(retry)]))
    case Emit =>
      if s.loop.Replaying? then s.(loop := Waiting, log := s.log + [Replayed(s.loop.retry)])
      else s.(loop := Waiting, log := s.log + [Forwarded(s.loop.pkt)])
  }

  /** Runs: any finite schedule of enabled steps from the fresh relay. */
  ghost predicate IsRun(schedule: seq<Step>, rejects: seq<byte> -> bool, s: System)
    decreases |schedule|
  {
    if schedule == [] then s == INITIAL
    else
      var last := |schedule| - 1;
      exists before :: IsRun(schedule[..last], rejects, before)
                    && Enabled(before, schedule[last]) && s == After(before, schedule[last], rejects)
  }

  // ----- What a log says -----

  /** The packet a log leaves armed: the last arming, unless spent or cleared since. */
  ghost function Pending(log: seq<Event>): Option<seq<byte>> {
    if log == [] then None
    else
      match log[|log| - 1]
      case Armed(original) => Some(original)
      case Taken(_) => None
      case Succeeded(_) => None
      case _ => Pending(log[..|log| - 1])
  }

  ghost predicate TakesWhatIsPending(log: seq<Event>) {
    forall i :: 0 <= i < |log| && log[i].Taken? ==> Pending(log[..i]) == Some(log[i].retry)
  }

  datatype Kind = RECEIVED | FORWARDED | REPLAYED | ARMED | TAKEN | ARMED_SEND

  predicate Is(e: Event, kind: Kind) {
    match kind
    case RECEIVED => e.Received?
    case FORWARDED => e.Forwarded?
    case REPLAYED => e.Replayed?
    case ARMED => e.Armed?
    case TAKEN => e.Taken?
    case ARMED_SEND => e.Sent? && e.armed
  }

  function Count(log: seq<Event>, kind: Kind): nat {
    if log == [] then 0 else Count(log[..|log| - 1], kind) + if Is(log[|log| - 1], kind) then 1 else 0
  }

  /** Handlers that have armed a retry but not yet sent their spliced packet. */
  function ArmedUnsent(uplinks: map<nat, Uplink>): set<nat> {
    set h | h in uplinks && uplinks[h].Sending? && uplinks[h].armed
  }

  ghost predicate Inv(s: System) {
    && s.relay.Armed() == Pending(s.log)
    && TakesWhatIsPending(s.log)
    && (forall h :: h in s.uplinks && s.uplinks[h].Arming? ==> s.uplinks[h].pkt != [])
    && (forall h :: h in s.uplinks && s.uplinks[h].Wrapping? ==> s.uplinks[h].pkt != [])
    && (forall h :: h in s.uplinks && s.uplinks[h].Deciding? ==> s.uplinks[h].pkt != [])
    && Count(s.log, RECEIVED) == Count(s.log, FORWARDED) + Count(s.log, REPLAYED) + (if s.loop.Waiting? then 0 else 1)
    && Count(s.log, TAKEN) == Count(s.log, REPLAYED) + (if s.loop.Replaying? then 1 else 0)
    && Count(s.log, ARMED) == Count(s.log, ARMED_SEND) + |ArmedUnsent(s.uplinks)|
    && Count(s.log, TAKEN) + (if Pending(s.log).Some? then 1 else 0) <= Count(s.log, ARMED)
  }

  lemma CountSnoc(log: seq<Event>, e: Event, kind: Kind)
    ensures Count(log + [e], kind) == Count(log, kind) + if Is(e, kind) then 1 else 0
  {
    assert (log + [e])[..|log|] == log;
  }

  lemma LogSnoc(log: seq<Event>, e: Event)
    ensures forall kind :: Count(log + [e], kind) == Count(log, kind) + if Is(e, kind) then 1 else 0
    ensures Pending(log + [e]) ==
      match e
      case Armed(original) => Some(original)
      case Taken(_) => None
      case Succeeded(_) => None
      case _ => Pending(log)
    ensures TakesWhatIsPending(log) && (e.Taken? ==> Pending(log) == Some(e.retry)) ==> TakesWhatIsPending(log + [e])
  {
    forall kind
      ensures Count(log + [e], kind) == Count(log, kind) + if Is(e, kind) then 1 else 0
    {
      CountSnoc(log, e, kind);
    }
    assert (log + [e])[..|log|] == log;
    assert forall i :: 0 <= i < |log| ==> (log + [e])[..i] == log[..i];
  }

  lemma UplinkMoves(uplinks: map<nat, Uplink>, h: nat, u: Uplink)
    requires h in uplinks ==> h !in ArmedUnsent(uplinks)
    ensures |ArmedUnsent(uplinks[h := u])| == |ArmedUnsent(uplinks)| + if u.Sending? && u.armed then 1 else 0
  {
    var after := ArmedUnsent(uplinks[h := u]);
    if u.Sending? && u.armed {
      assert after == ArmedUnsent(uplinks) + {h};
    } else {
      assert after == ArmedUnsent(uplinks);
    }
  }

  lemma UplinkEnds(uplinks: map<nat, Uplink>, h: nat)
    requires h in uplinks
    ensures |ArmedUnsent(uplinks)|
         == |ArmedUnsent(uplinks - {h})| + if uplinks[h].Sending? && uplinks[h].armed then 1 else 0
  {
    if uplinks[h].Sending? && uplinks[h].armed {
      assert ArmedUnsent(uplinks) == ArmedUnsent(uplinks - {h}) + {h};
    } else {
      assert ArmedUnsent(uplinks) == ArmedUnsent(uplinks - {h});
    }
  }

  predicate IsUplinkStep(step: Step) {
    step.Begin? || step.Decide? || step.Wrap? || step.Arm? || step.Send?
  }

  lemma UplinkStepKeepsInv(s: System, step: Step, rejects: seq<byte> -> bool)
    requires Inv(s) && Enabled(s, step) && IsUplinkStep(step)
    ensures Inv(After(s, step, rejects))
  {
    hide Count, ArmedUnsent, TakesWhatIsPending, Pending, FailureReply, SuccessReply, Restored, ParseSessionResponse;
    var t := After(s, step, rejects);
    if |t.log| > |s.log| {
      LogSnoc(s.log, t.log[|s.log|]);
    }
    match step
    case Begin(h, pkt) => UplinkMoves(s.uplinks, h, Deciding(pkt));
    case Decide(h, verdict) =>
      NotArmedUnsent(s.uplinks, h);
      UplinkEnds(s.uplinks, h);
      if !verdict.Drop? {
        UplinkMoves(s.uplinks, h, t.uplinks[h]);
      }
    case Wrap(h) => NotArmedUnsent(s.uplinks, h); UplinkMoves(s.uplinks, h, t.uplinks[h]);
    case Arm(h) => NotArmedUnsent(s.uplinks, h); UplinkMoves(s.uplinks, h, t.uplinks[h]);
    case Send(h) => UplinkEnds(s.uplinks, h);
  }

  lemma DownlinkStepKeepsInv(s: System, step: Step, rejects: seq<byte> -> bool)
    requires Inv(s) && Enabled(s, step) && !IsUplinkStep(step)
    ensures Inv(After(s, step, rejects))
  {
    hide Count, ArmedUnsent, TakesWhatIsPending, Pending, FailureReply, SuccessReply, Restored, ParseSessionResponse;
    var t := After(s, step, rejects);
    if |t.log| > |s.log| {
      LogSnoc(s.log, t.log[|s.log|]);
    }
  }

  lemma StepKeepsInv(s: System, step: Step, rejects: seq<byte> -> bool)
    requires Inv(s) && Enabled(s, step)
    ensures Inv(After(s, step, rejects))
  {
    hide Inv, After, Enabled;
    if IsUplinkStep(step) {
      UplinkStepKeepsInv(s, step, rejects);
    } else {
      DownlinkStepKeepsInv(s, step, rejects);
    }
  }

  lemma NotArmedUnsent(uplinks: map<nat, Uplink>, h: nat)
    requires h in uplinks && !uplinks[h].Sending?
    ensures h !in ArmedUnsent(uplinks)
  {
  }

  lemma {:induction false} RunKeepsInv(schedule: seq<Step>, rejects: seq<byte> -> bool, s: System)
    requires IsRun(schedule, rejects, s)
    ensures Inv(s)
    decreases |schedule|
  {
    if schedule == [] {
      assert ArmedUnsent(INITIAL.uplinks) == {};
    } else {
      var last := |schedule| - 1;
      var before :| IsRun(schedule[..last], rejects, before)
                 && Enabled(before, schedule[last]) && s == After(before, schedule[last], rejects);
      RunKeepsInv(schedule[..last], rejects, before);
      StepKeepsInv(before, schedule[last], rejects);
    }
  }

  // ----- Safety over all runs -----

  /** A pending packet was armed, and nothing touched the fallback since. */
  lemma {:induction false} PendingWasArmed(log: seq<Event>) returns (j: nat)
    requires Pending(log).Some?
    ensures j < |log| && log[j] == Armed(Pending(log).value)
    ensures forall k :: j < k < |log| ==> !log[k].Armed? && !log[k].Taken? && !log[k].Succeeded?
  {
    var last := |log| - 1;
    if log[last].Armed? {
      j := last;
    } else {
      j := PendingWasArmed(log[..last]);
    }
  }

  /** In every run, each retry taken is the most recently armed original, byte for byte; no
      arming serves twice; and after a success reply nothing is retried until the next
      arming, even if that reply also reads as a failure. */
  lemma RetryIsLastArmed(schedule: seq<Step>, rejects: seq<byte> -> bool, s: System, i: nat) returns (j: nat)
    requires IsRun(schedule, rejects, s)
    requires i < |s.log| && s.log[i].Taken?
    ensures j < i && s.log[j] == Armed(s.log[i].retry)
    ensures forall k :: j < k < i ==> !s.log[k].Armed? && !s.log[k].Taken? && !s.log[k].Succeeded?
  {
    RunKeepsInv(schedule, rejects, s);
    j := PendingWasArmed(s.log[..i]);
    assert s.log[..i][j] == s.log[j];
    forall k | j < k < i
      ensures !s.log[k].Armed? && !s.log[k].Taken? && !s.log[k].Succeeded?
    {
      assert s.log[..i][k] == s.log[k];
    }
  }

  // ----- From taking to replaying -----

  /** The retry the read loop has taken and not yet sent, as the log has it. */
  ghost function InHand(log: seq<Event>): Option<seq<byte>> {
    if log == [] then None
    else
      match log[|log| - 1]
      case Taken(retry) => Some(retry)
      case Armed(_) => InHand(log[..|log| - 1])
      case Sent(_, _) => InHand(log[..|log| - 1])
      case _ => None
  }

  ghost predicate ReplaysWhatIsInHand(log: seq<Event>) {
    forall i :: 0 <= i < |log| && log[i].Replayed? ==> InHand(log[..i]) == Some(log[i].retry)
  }

  ghost predicate HandInv(s: System) {
    && InHand(s.log) == (if s.loop.Replaying? then Some(s.loop.retry) else None)
    && ReplaysWhatIsInHand(s.log)
  }

  lemma HandSnoc(log: seq<Event>, e: Event)
    ensures InHand(log + [e]) ==
      match e
      case Taken(retry) => Some(retry)
      case Armed(_) => InHand(log)
      case Sent(_, _) => InHand(log)
      case _ => None
    ensures ReplaysWhatIsInHand(log) && (e.Replayed? ==> InHand(log) == Some(e.retry)) ==> ReplaysWhatIsInHand(log + [e])
  {
    assert (log + [e])[..|log|] == log;
    assert forall i :: 0 <= i < |log| ==> (log + [e])[..i] == log[..i];
  }

  lemma StepKeepsHand(s: System, step: Step, rejects: seq<byte> -> bool)
    requires HandInv(s) && Enabled(s, step)
    ensures HandInv(After(s, step, rejects))
  {
    hide InHand, ReplaysWhatIsInHand, FailureReply, SuccessReply, Restored, ParseSessionResponse;
    var t := After(s, step, rejects);
    if |t.log| > |s.log| {
      HandSnoc(s.log, t.log[|s.log|]);
    }
  }

  lemma {:induction false} RunKeepsHand(schedule: seq<Step>, rejects: seq<byte> -> bool, s: System)
    requires IsRun(schedule, rejects, s)
    ensures HandInv(s)
    decreases |schedule|
  {
    hide After;
    if schedule != [] {
      var last := |schedule| - 1;
      var before :| IsRun(schedule[..last], rejects, before)
                 && Enabled(before, schedule[last]) && s == After(before, schedule[last], rejects);
      RunKeepsHand(schedule[..last], rejects, before);
      StepKeepsHand(before, schedule[last], rejects);
    }
  }

  lemma {:induction false} InHandWasTaken(log: seq<Event>) returns (k: nat)
    requires InHand(log).Some?
    ensures k < |log| && log[k] == Taken(InHand(log).value)
    ensures forall m :: k < m < |log| ==> log[m].Armed? || log[m].Sent?
  {
    var last := |log| - 1;
    if log[last].Taken? {
      k := last;
    } else {
      k := InHandWasTaken(log[..last]);
    }
  }

  /** In every run, each replay sends, byte for byte, the packet last armed when it was taken:
      armed at j, taken at k, with no other arming, taking or success reply between, and no
      downlink at all between taking it and sending it. */
  lemma ReplayIsLastArmed(schedule: seq<Step>, rejects: seq<byte> -> bool, s: System, i: nat) returns (j: nat, k: nat)
    requires IsRun(schedule, rejects, s)
    requires i < |s.log| && s.log[i].Replayed?
    ensures j < k < i && s.log[j] == Armed(s.log[i].retry) && s.log[k] == Taken(s.log[i].retry)
    ensures forall m :: j < m < k ==> !s.log[m].Armed? && !s.log[m].Taken? && !s.log[m].Succeeded?
    ensures forall m :: k < m < i ==> s.log[m].Armed? || s.log[m].Sent?
  {
    hide IsRun, InHand;
    RunKeepsHand(schedule, rejects, s);
    k := InHandWasTaken(s.log[..i]);
    assert forall m :: 0 <= m < i ==> s.log[..i][m] == s.log[m];
    j := RetryIsLastArmed(schedule, rejects, s, k);
  }

  /** In every run: replays never exceed armings; armings are the spliced sends that armed
      plus the handlers still about to send, so replays exceed those sends by such handlers at
      most; and every datagram received was forwarded or answered by a replay, but for the one
      in hand. */
  lemma Conservation(schedule: seq<Step>, rejects: seq<byte> -> bool, s: System)
    requires IsRun(schedule, rejects, s)
    ensures Count(s.log, REPLAYED) <= Count(s.log, TAKEN) <= Count(s.log, ARMED)
    ensures Count(s.log, ARMED) == Count(s.log, ARMED_SEND) + |ArmedUnsent(s.uplinks)|
    ensures Count(s.log, REPLAYED) <= Count(s.log, ARMED_SEND) + |ArmedUnsent(s.uplinks)|
    ensures Count(s.log, RECEIVED) == Count(s.log, FORWARDED) + Count(s.log, REPLAYED) + (if s.loop.Waiting? then 0 else 1)
  {
    RunKeepsInv(schedule, rejects, s);
  }

  // ----- The bound is reached -----

  /** A disconnect, which every relay takes for a failure. */
  const DISCONNECT: seq<byte> := [0, 5]

  lemma DisconnectFails(rejects: seq<byte> -> bool)
    ensures FailureReply(DISCONNECT, rejects) && !SuccessReply(DISCONNECT)
  {
  }

  /** Handlers 0 to n - 1 have armed and not sent, and each armed packet has been replayed. */
  ghost predicate Overtaken(s: System, n: nat) {
    && s.loop.Waiting? && (forall h :: h in s.uplinks ==> h < n)
    && Count(s.log, REPLAYED) == n && Count(s.log, ARMED) == n && Count(s.log, ARMED_SEND) == 0
  }

  /** For every n, n replays with none of the n spliced packets sent: the read loop may replay a
      packet before the handler that armed it has sent. */
  lemma {:induction false} ReplayBeforeSend(n: nat, rejects: seq<byte> -> bool) returns (schedule: seq<Step>, s: System)
    ensures IsRun(schedule, rejects, s) && Overtaken(s, n)
    ensures |ArmedUnsent(s.uplinks)| == n && Count(s.log, REPLAYED) == n && Count(s.log, ARMED_SEND) == 0
    decreases n
  {
    hide IsRun, ArmedUnsent;
    if n == 0 {
      schedule, s := [], INITIAL;
      NoSteps(rejects);
    } else {
      schedule, s := ReplayBeforeSend(n - 1, rejects);
      schedule, s := Overtake(n - 1, rejects, schedule, s);
    }
    Conservation(schedule, rejects, s);
  }

  lemma Overtake(n: nat, rejects: seq<byte> -> bool, schedule0: seq<Step>, s0: System) returns (schedule: seq<Step>, s: System)
    requires IsRun(schedule0, rejects, s0) && Overtaken(s0, n)
    ensures IsRun(schedule, rejects, s) && Overtaken(s, n + 1)
  {
    hide IsRun, Count, FailureReply, SuccessReply;
    var s1;
    schedule, s1 := ArmNext(schedule0, rejects, s0, n);
    DisconnectFails(rejects);
    schedule, s := ReplayArmed(schedule, rejects, s1, DISCONNECT);
    var log1 := s0.log + [Armed([7])];
    LogSnoc(s0.log, Armed([7]));
    LogSnoc(log1, Received(DISCONNECT));
    LogSnoc(log1 + [Received(DISCONNECT)], Taken([7]));
    LogSnoc(log1 + [Received(DISCONNECT)] + [Taken([7])], Replayed([7]));
  }

  /** Handler h arms packet [7] and does not send yet. */
  lemma ArmNext(schedule0: seq<Step>, rejects: seq<byte> -> bool, s0: System, h: nat) returns (schedule: seq<Step>, s: System)
    requires IsRun(schedule0, rejects, s0) && h !in s0.uplinks && s0.loop.Waiting?
    ensures IsRun(schedule, rejects, s)
    ensures s.relay.Armed() == Some([7]) && s.loop.Waiting? && s.log == s0.log + [Armed([7])]
    ensures s.uplinks.Keys == s0.uplinks.Keys + {h}
  {
    hide FailureReply, SuccessReply, Restored, ParseSessionResponse, IsRun;
    schedule, s := Then(schedule0, rejects, s0, Begin(h, [7]));
    schedule, s := Then(schedule, rejects, s, Decide(h, Splice([8], true)));
    schedule, s := Then(schedule, rejects, s, Wrap(h));
    schedule, s := Then(schedule, rejects, s, Arm(h));
  }

  /** A failure reply makes the read loop replay it. */
  lemma ReplayArmed(schedule0: seq<Step>, rejects: seq<byte> -> bool, s0: System, failure: seq<byte>)
    returns (schedule: seq<Step>, s: System)
    requires FailureReply(failure, rejects) && !SuccessReply(failure)
    requires IsRun(schedule0, rejects, s0) && s0.relay.Armed() == Some([7]) && s0.loop.Waiting?
    ensures IsRun(schedule, rejects, s) && s.loop.Waiting? && s.uplinks == s0.uplinks
    ensures s.log == s0.log + [Received(failure)] + [Taken([7])] + [Replayed([7])]
  {
    hide FailureReply, SuccessReply, Restored, ParseSessionResponse, IsRun;
    schedule, s := Then(schedule0, rejects, s0, Receive(failure));
    NotingKeepsArmed(s);
    schedule, s := Then(schedule, rejects, s, NoteCrc);
    schedule, s := Then(schedule, rejects, s, NoteSuccess);
    schedule, s := Then(schedule, rejects, s, Judge);
    schedule, s := Then(schedule, rejects, s, Emit);
  }

  lemma NotingKeepsArmed(s: System)
    requires s.loop.Got?
    ensures s.relay.NoteSession(s.loop.pkt).Armed() == s.relay.Armed()
  {
    hide ParseSessionResponse;
  }

  /** Replays stay within the spliced sends that armed, in all runs that end with n armed
      handlers about to send, exactly when n is zero. */
  lemma ReplaysWithinSends(n: nat, rejects: seq<byte> -> bool)
    ensures (forall schedule, s :: IsRun(schedule, rejects, s) && |ArmedUnsent(s.uplinks)| == n ==>
               Count(s.log, REPLAYED) <= Count(s.log, ARMED_SEND))
       <==> n == 0
  {
    hide IsRun, ArmedUnsent, Count;
    if n == 0 {
      forall schedule, s | IsRun(schedule, rejects, s) && |ArmedUnsent(s.uplinks)| == n
        ensures Count(s.log, REPLAYED) <= Count(s.log, ARMED_SEND)
      {
        Conservation(schedule, rejects, s);
      }
    } else {
      var schedule, s := ReplayBeforeSend(n, rejects);
    }
  }

  lemma NoSteps(rejects: seq<byte> -> bool)
    ensures IsRun([], rejects, INITIAL)
  {
  }

  lemma Then(schedule: seq<Step>, rejects: seq<byte> -> bool, s: System, step: Step)
    returns (longer: seq<Step>, t: System)
    requires IsRun(schedule, rejects, s) && Enabled(s, step)
    ensures IsRun(longer, rejects, t) && t == After(s, step, rejects)
  {
    longer, t := schedule + [step], After(s, step, rejects);
    assert longer[..|schedule|] == schedule;
  }
}
