// The record a login relay keeps under its mutex: the session's CRC settings and the typed
// packet kept back for one retry. Each critical section is one transition function, and the
// class is the code that takes the lock.
module RelayState {
  import opened Bytes
  import opened Wrappers
  import opened Soe

  datatype State = State(crcBytes: byte, crcKey: bv32, fallback: seq<byte>, retryUsed: bool) {
    function NoteSession(pkt: seq<byte>): State {
      match ParseSessionResponse(pkt)
      case None => this
      case Some(resp) => this.(crcBytes := resp.crcBytes, crcKey := resp.encodeKey)
    }

    function SetFallback(pkt: seq<byte>): State {
      if pkt == [] then this else this.(fallback := pkt, retryUsed := false)
    }

    /** The packet to retry, if one is armed, and the state with it spent. */
    function TakeRetry(): (State, Option<seq<byte>>) {
      if retryUsed || fallback == [] then (this, None)
      else (this.(fallback := [], retryUsed := true), Some(fallback))
    }

    function ClearFallback(): State {
      this.(fallback := [], retryUsed := true)
    }

    /** What a retry would send now. */
    function Armed(): Option<seq<byte>> {
      if retryUsed || fallback == [] then None else Some(fallback)
    }
  }

  const FRESH := State(0, 0, [], false)

  /** An armed packet is handed out once, and not at all after a clear; the settings stay. */
  lemma RetryOnce(s: State, pkt: seq<byte>)
    requires pkt != []
    ensures var armed := s.SetFallback(pkt);
      var (spent, retry) := armed.TakeRetry();
      && retry == Some(pkt)
      && spent.TakeRetry() == (spent, None)
      && armed.ClearFallback().TakeRetry().1 == None
      && FRESH.TakeRetry().1 == None && s.SetFallback([]) == s
      && forall s' :: s' in {armed, spent, armed.ClearFallback()} ==> s'.crcBytes == s.crcBytes && s'.crcKey == s.crcKey
  {
  }

  /** A session response, byte by byte, settles the key and the width and nothing else; what is
      no session response settles nothing. */
  lemma SessionSettles(s: State, pkt: seq<byte>)
    ensures var s' := s.NoteSession(pkt);
      && s'.fallback == s.fallback && s'.retryUsed == s.retryUsed
      && if |pkt| >= 17 && pkt[0] == 0 && pkt[1] == 2
         then && s'.crcBytes == pkt[10]
              && s'.crcKey >> 24 == Word(pkt[6]) && (s'.crcKey >> 16) & 0xFF == Word(pkt[7])
              && (s'.crcKey >> 8) & 0xFF == Word(pkt[8]) && s'.crcKey & 0xFF == Word(pkt[9])
         else s' == s
  {
    hide ParseSessionResponse, Word;
    SessionResponseIs(pkt);
  }

  datatype DownAction = Replay(retry: seq<byte>) | Forward(pkt: seq<byte>)

  class UdpRelay {
    var crcBytes: byte
    var crcKey: bv32
    var typedFallback: seq<byte>
    var typedRetryUsed: bool

    constructor ()
      ensures Abstract() == FRESH
    {
      crcBytes, crcKey, typedFallback, typedRetryUsed := 0, 0, [], false;
    }

    function Abstract(): State
      reads this
    {
      State(crcBytes, crcKey, typedFallback, typedRetryUsed)
    }

    method SetTypedFallback(pkt: seq<byte>)
      modifies this
      ensures Abstract() == old(Abstract()).SetFallback(pkt)
    {
      if |pkt| == 0 {
        return;
      }
      typedFallback := pkt;
      typedRetryUsed := false;
    }

    method TakeTypedRetry() returns (retry: Option<seq<byte>>)
      modifies this
      ensures (Abstract(), retry) == old(Abstract()).TakeRetry()
    {
      if typedRetryUsed || |typedFallback| == 0 {
        return None;
      }
      typedRetryUsed := true;
      retry := Some(typedFallback);
      typedFallback := [];
    }

    method ClearTypedFallback()
      modifies this
      ensures Abstract() == old(Abstract()).ClearFallback()
    {
      typedFallback := [];
      typedRetryUsed := true;
    }

    method NoteDownlink(pkt: seq<byte>)
      modifies this
      ensures Abstract() == if SuccessReply(pkt) then old(Abstract()).NoteSession(pkt).ClearFallback()
                            else old(Abstract()).NoteSession(pkt)
    {
      var resp := ParseSessionResponse(pkt);
      if resp.Some? {
        crcBytes := resp.value.crcBytes;
        crcKey := resp.value.encodeKey;
      }
      var success := LooksLikeLoginSuccess(pkt);
      if success {
        ClearTypedFallback();
      }
    }

    method StripBody(pkt: seq<byte>) returns (body: seq<byte>)
      ensures body == StripForParse(pkt, crcBytes)
    {
      body := StripForParse(pkt, crcBytes);
    }

    method WrapSpliced(body: seq<byte>) returns (out: seq<byte>)
      ensures out == Restored(body, crcKey, crcBytes)
    {
      out := RestoreCRC(body, crcKey, crcBytes);
    }

    /** One round of the read loop, with nothing in between: a failure reply is answered by
        the armed packet, and every other datagram goes down to the client. */
    method HandleDownlink(pkt: seq<byte>, rejects: seq<byte> -> bool) returns (action: DownAction)
      modifies this
      ensures var noted := if SuccessReply(pkt) then old(Abstract()).NoteSession(pkt).ClearFallback()
                           else old(Abstract()).NoteSession(pkt);
        if FailureReply(pkt, rejects) && !SuccessReply(pkt) && old(Abstract()).Armed().Some?
        then action == Replay(old(Abstract()).Armed().value) && Abstract() == noted.ClearFallback()
        else action == Forward(pkt) && Abstract() == noted
    {
      NoteDownlink(pkt);
      var failed := LooksLikeLoginFailure(pkt, rejects);
      if failed {
        var retry := TakeTypedRetry();
        if retry.Some? {
          return Replay(retry.value);
        }
      }
      action := Forward(pkt);
    }
  }
}
