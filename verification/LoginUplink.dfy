// The uplink of a login: strip the trailer, parse, choose a vault account, splice its
// credentials in, and put the trailer back. The text of the store is a string of bytes, one
// character each.
module LoginUplink {
  import opened Bytes
  import opened BlockCiphers
  import opened LoginPackets
  import opened LoginResolution
  import opened Presence
  import opened RelayState
  import opened Soe
  import opened Tables
  import Text
  import opened Wrappers

  const MAX_RELAY_PAYLOAD := 8192

  function Chars(b: seq<byte>): string {
    seq(|b|, i requires 0 <= i < |b| => b[i] as char)
  }

  function Raw(s: string): seq<byte> {
    seq(|s|, i requires 0 <= i < |s| => (s[i] as int) % 256)
  }

  datatype Splice = AsIs | Drop(reason: string) | Send(body: seq<byte>, retryTyped: bool, account: nat) | Failure

  /** Username and password of an enabled account. */
  function VaultCredentials(t: Tables, a: nat): Option<(seq<byte>, seq<byte>)> {
    if a in t.accounts && !t.accounts[a].disabled then Some((Raw(t.accounts[a].username), Raw(t.accounts[a].password)))
    else None
  }

  /** The outcome for a parsed login once an account is chosen. */
  function SpliceAccount(cipher: BlockCipher, t: Tables, lp: LoginPacket, chosen: nat): Splice
    requires InBounds(lp)
  {
    match VaultCredentials(t, chosen)
    case None => Failure
    case Some((username, password)) =>
      match Rewritten(cipher, lp, username, password)
      case Err(_) => Failure
      case Ok(out) => Send(out, lp.password != password, chosen)
  }

  function SpliceOf(cipher: BlockCipher, t: Tables, user: nat, body: seq<byte>, allowed: bool, lookupFails: bool,
                    busy: set<nat>): Splice {
    match ParseLoginPacket(cipher, body)
    case None => AsIs
    case Some(lp) =>
      if !allowed then Drop("rate_limited")
      else
        var cands := ResolveLoginCandidates(t, user, Chars(lp.username));
        if lookupFails || cands == [] then AsIs
        else if Picked(cands, busy) == 0 then Drop("all_busy")
        else
          ParsedInBounds(cipher, body);
          SpliceAccount(cipher, t, lp, Picked(cands, busy))
  }

  /** The candidates for the name typed in a datagram; none for what is no login. */
  function Candidates(cipher: BlockCipher, t: Tables, user: nat, body: seq<byte>): (cands: seq<LoginCandidate>)
    ensures Ascending(cands) && |cands| <= t.nextAccount
  {
    match ParseLoginPacket(cipher, body)
    case None => []
    case Some(lp) =>
      CandidatesAscend(t, user, Chars(lp.username));
      ResolveLoginCandidates(t, user, Chars(lp.username))
  }

  lemma CandidatesAscend(t: Tables, user: nat, name: string)
    ensures Ascending(ResolveLoginCandidates(t, user, name)) && |ResolveLoginCandidates(t, user, name)| <= t.nextAccount
  {
    hide Scan;
    ScanFits(t, user, Text.Lower(Text.Trim(name)), t.nextAccount);
    ScanLists(t, user, Text.Lower(Text.Trim(name)), t.nextAccount);
  }

  /** The tag accounts of the typed name seen busy. */
  ghost function BusyFor(cipher: BlockCipher, t: Tables, user: nat, body: seq<byte>, pres: Tracker?, times: seq<int>): set<nat>
    requires t.nextAccount <= |times|
    reads pres
  {
    PoolFits(Candidates(cipher, t, user, body));
    BusySeen(pres, TagPool(Candidates(cipher, t, user, body)), times)
  }

  /** The rate limiter's answer, the failure of the lookup and the clock's readings are inputs:
      `times` for the busy checks, `now` for the clear. A sent login clears the user's other
      accounts from the tracker; nothing else touches the history. */
  method SpliceLoginPacket(cipher: BlockCipher, t: Tables, user: nat, body: seq<byte>, allowed: bool, lookupFails: bool,
                           pres: Tracker?, times: seq<int>, now: int) returns (r: Splice)
    requires t.nextAccount <= |times| && Readings(pres, times + [now])
    modifies pres
    ensures r == SpliceOf(cipher, t, user, body, allowed, lookupFails, old(BusyFor(cipher, t, user, body, pres, times)))
    ensures pres != null ==> pres.Valid() && pres.clock <= now
    ensures pres != null ==>
      pres.log == old(pres.log) + if r.Send? then [Timed(now, ClearedUserExcept(user, r.account))] else []
  {
    hide ParseLoginPacket, ResolveLoginCandidates, Picked, Rewritten, VaultCredentials, BusySeen;
    assert forall i :: 0 <= i < |times| ==> (times + [now])[i] == times[i];
    assert (times + [now])[|times|] == now;
    var parsed := ParseLoginPacket(cipher, body);
    if parsed.None? {
      return AsIs;
    }
    var lp := parsed.value;
    if !allowed {
      return Drop("rate_limited");
    }
    var cands := ResolveLoginCandidates(t, user, Chars(lp.username));
    if lookupFails || |cands| == 0 {
      return AsIs;
    }
    CandidatesAscend(t, user, Chars(lp.username));
    var chosen := PickLoginCandidate(cands, pres, times);
    if chosen == 0 {
      return Drop("all_busy");
    }
    var vault := VaultCredentials(t, chosen);
    ParsedInBounds(cipher, body);
    if vault.None? {
      return Failure;
    }
    var retryTyped := lp.password != vault.value.1;
    var out := RewriteCredentials(cipher, lp, vault.value.0, vault.value.1);
    if out.Err? {
      return Failure;
    }
    if pres != null {
      var _ := pres.ClearUserExcept(user, chosen, now);
    }
    r := Send(out.value, retryTyped, chosen);
  }

  datatype Up = Emit(datagram: seq<byte>) | Quiet | Report(message: string)

  /** The uplink handler. The relay's settings are read once to strip and once to wrap, in two
      critical sections, so a session response may come between: before and after. */
  function UplinkOf(cipher: BlockCipher, t: Tables, user: nat, payload: Option<seq<byte>>, splice: bool,
                    before: State, after: State, allowed: bool, lookupFails: bool, busy: set<nat>): (Up, State) {
    match payload
    case None => (Report("bad_payload"), after)
    case Some(pkt) =>
      if pkt == [] || |pkt| > MAX_RELAY_PAYLOAD then (Report("bad_payload"), after)
      else if !splice then (Emit(pkt), after)
      else
        match SpliceOf(cipher, t, user, StripForParse(pkt, before.crcBytes), allowed, lookupFails, busy)
        case Failure => (Report("internal"), after)
        case Drop(_) => (Quiet, after)
        case AsIs => (Emit(pkt), after)
        case Send(body, retryTyped, _) =>
          (Emit(Restored(body, after.crcKey, after.crcBytes)), if retryTyped then after.SetFallback(pkt) else after)
  }

  /** In one piece, so the settings at the strip and at the wrap are the same here. */
  method HandleLoginRelayUp(cipher: BlockCipher, t: Tables, user: nat, payload: Option<seq<byte>>, splice: bool,
                            relay: UdpRelay?, allowed: bool, lookupFails: bool, pres: Tracker?, times: seq<int>, now: int)
    returns (up: Up)
    requires t.nextAccount <= |times| && Readings(pres, times + [now])
    modifies pres, relay
    ensures relay != null ==>
      (up, relay.Abstract()) == UplinkOf(cipher, t, user, payload, splice, old(relay.Abstract()), old(relay.Abstract()), allowed, lookupFails,
                                         old(BusyFor(cipher, t, user, Body(payload, relay.Abstract()), pres, times)))
    ensures relay == null ==> up.Report?
    ensures pres != null ==> pres.Valid() && pres.clock <= now
    ensures pres != null && relay != null ==>
      pres.log == old(pres.log) + old(ClearsOf(cipher, t, user, payload, splice, relay.Abstract(), allowed, lookupFails,
                                               BusyFor(cipher, t, user, Body(payload, relay.Abstract()), pres, times), now))
    ensures pres != null && relay == null ==> pres.log == old(pres.log)
  {
    hide SpliceOf, Restored, StripForParse, BusyFor, Candidates;
    assert (times + [now])[|times|] == now;
    if payload.None? || |payload.value| == 0 || |payload.value| > MAX_RELAY_PAYLOAD {
      return Report("bad_payload");
    }
    var pkt := payload.value;
    if relay == null {
      return Report("upstream_unavailable");
    }
    var out := pkt;
    if splice {
      var body := relay.StripBody(pkt);
      var r := SpliceLoginPacket(cipher, t, user, body, allowed, lookupFails, pres, times, now);
      if r.Failure? {
        return Report("internal");
      }
      if r.Drop? {
        return Quiet;
      }
      if r.Send? {
        out := relay.WrapSpliced(r.body);
        if r.retryTyped {
          relay.SetTypedFallback(pkt);
        }
      }
    }
    up := Emit(out);
  }

  /** What a datagram adds to the presence history: a clear of the user's other accounts when a
      login is spliced, and nothing otherwise. */
  ghost function ClearsOf(cipher: BlockCipher, t: Tables, user: nat, payload: Option<seq<byte>>, splice: bool, s: State,
                          allowed: bool, lookupFails: bool, busy: set<nat>, now: int): seq<Timed> {
    if payload.Some? && 0 < |payload.value| <= MAX_RELAY_PAYLOAD && splice then
      match SpliceOf(cipher, t, user, Body(payload, s), allowed, lookupFails, busy)
      case Send(_, _, account) => [Timed(now, ClearedUserExcept(user, account))]
      case _ => []
    else []
  }

  /** What is left of a payload to parse. */
  function Body(payload: Option<seq<byte>>, s: State): seq<byte> {
    match payload
    case None => []
    case Some(pkt) => StripForParse(pkt, s.crcBytes)
  }

  // ----- End to end -----

  /** When a login is spliced: it parses, is let through, its name picks an account, and that
      account's credentials fit. There is no failure other than credentials that do not. */
  lemma SpliceOutcome(cipher: BlockCipher, t: Tables, user: nat, body: seq<byte>, allowed: bool, lookupFails: bool,
                      busy: set<nat>)
    requires Valid(t)
    ensures var r := SpliceOf(cipher, t, user, body, allowed, lookupFails, busy);
      var parsed := ParseLoginPacket(cipher, body);
      if parsed.None? then r == AsIs
      else
        var cands := ResolveLoginCandidates(t, user, Chars(parsed.value.username));
        var chosen := Picked(cands, busy);
        if !allowed then r.Drop?
        else if lookupFails || cands == [] then r == AsIs
        else if chosen == 0 then r.Drop?
        else
          && chosen in t.accounts
          && var fits := |t.accounts[chosen].username| + |t.accounts[chosen].password| + 2 <= 232;
             if fits then r.Send? && r.account == chosen else r == Failure
  {
    hide Valid, ParseLoginPacket, ResolveLoginCandidates, Picked, Rewritten, Eligible, DirectMatch, TagMatch, Chars;
    var parsed := ParseLoginPacket(cipher, body);
    if parsed.Some? {
      ParsedInBounds(cipher, body);
      var name := Chars(parsed.value.username);
      LoginResolves(t, user, name, busy);
      var chosen := Picked(ResolveLoginCandidates(t, user, name), busy);
      if chosen != 0 {
        RewriteFits(cipher, body, Raw(t.accounts[chosen].username), Raw(t.accounts[chosen].password));
      }
    }
  }

  /** What becomes of every payload, told by its bytes, the limiter and the candidates alone. A
      login that is not let through, or whose two or more candidates all match by tag only and
      are all busy, is dropped; one whose account's credentials are too long is reported; and
      every other datagram is answered by sending one. Only a spliced login arms a retry. */
  lemma UplinkDecides(cipher: BlockCipher, t: Tables, user: nat, payload: Option<seq<byte>>, splice: bool, before: State,
                      after: State, allowed: bool, lookupFails: bool, busy: set<nat>)
    requires Valid(t)
    ensures var (up, state) := UplinkOf(cipher, t, user, payload, splice, before, after, allowed, lookupFails, busy);
      if payload.None? || |payload.value| == 0 || |payload.value| > 8192 then up.Report? && state == after
      else
        var pkt := payload.value;
        var parsed := ParseLoginPacket(cipher, StripForParse(pkt, before.crcBytes));
        if !splice || parsed.None? then (up, state) == (Emit(pkt), after)
        else if !allowed then (up, state) == (Quiet, after)
        else
          var cands := ResolveLoginCandidates(t, user, Chars(parsed.value.username));
          if lookupFails || cands == [] then (up, state) == (Emit(pkt), after)
          else if |cands| >= 2 && forall c :: c in cands ==> !c.byUser && !c.byAlias && !c.byCharacter && c.id in busy
          then (up, state) == (Quiet, after)
          else
            var chosen := Picked(cands, busy);
            && chosen in t.accounts
            && if |t.accounts[chosen].username| + |t.accounts[chosen].password| + 2 <= 232 then up.Emit?
               else up.Report? && state == after
  {
    hide SpliceOf, Restored, StripForParse, ParseLoginPacket, ResolveLoginCandidates, Picked, Valid, Chars;
    if payload.Some? {
      var body := StripForParse(payload.value, before.crcBytes);
      var parsed := ParseLoginPacket(cipher, body);
      SpliceOutcome(cipher, t, user, body, allowed, lookupFails, busy);
      if parsed.Some? {
        NoneChosen(t, user, Chars(parsed.value.username), busy);
      }
    }
  }

  /** End to end, whichever settings were in force at the strip: a spliced login leaves as a
      body and its checksum under the settings at the wrap; stripped of it, the body parses to
      the vault credentials of an account the user may use, and carries the same application
      opcodes as what the client sent. The client's packet is kept for a retry exactly when
      the typed password differs from the vault's. */
  lemma SplicedLogin(cipher: BlockCipher, t: Tables, user: nat, pkt: seq<byte>, before: State, after: State,
                     allowed: bool, lookupFails: bool, busy: set<nat>)
    requires Valid(t) && cipher.Invertible()
    requires after.crcBytes in {0, 2, 4}
    requires 0 < |pkt| <= MAX_RELAY_PAYLOAD
    requires SpliceOf(cipher, t, user, StripForParse(pkt, before.crcBytes), allowed, lookupFails, busy).Send?
    ensures var body := StripForParse(pkt, before.crcBytes);
      var sent := SpliceOf(cipher, t, user, body, allowed, lookupFails, busy);
      var (up, state) := UplinkOf(cipher, t, user, Some(pkt), true, before, after, allowed, lookupFails, busy);
      var typed := ParseLoginPacket(cipher, body);
      && up.Emit? && typed.Some? && sent.account in t.accounts && !t.accounts[sent.account].disabled
      && var account := t.accounts[sent.account];
         var inner := StripForParse(up.datagram, after.crcBytes);
         var parsed := ParseLoginPacket(cipher, inner);
         && Eligible(t, user, NameKey(typed.value.username), sent.account)
         && up.datagram == inner + Trailer(inner, after.crcKey, after.crcBytes)
         && parsed.Some?
         && (parsed.value.username == Raw(account.username) && parsed.value.password == Raw(account.password)
             <==> NulFree(Raw(account.username)) && NulFree(Raw(account.password)))
         && AppOpcodes(inner) == AppOpcodes(body)
         && state == if typed.value.password != Raw(account.password) then after.SetFallback(pkt) else after
  {
    hide *;
    var body := StripForParse(pkt, before.crcBytes);
    var sent := SpliceOf(cipher, t, user, body, allowed, lookupFails, busy);
    var typed := ParseLoginPacket(cipher, body);
    SpliceOutcome(cipher, t, user, body, allowed, lookupFails, busy);
    LoginResolves(t, user, Chars(typed.value.username), busy);
    var account := t.accounts[sent.account];
    var u, p := Raw(account.username), Raw(account.password);
    SentIsRewritten(cipher, t, user, body, allowed, lookupFails, busy);
    RewriteThenParse(cipher, body, u, p);
    RewriteKeepsOpcodes(cipher, body, u, p);
    LoginUsesCRC(cipher, sent.body);
    StripRestores(sent.body, after.crcKey, after.crcBytes);
    UplinkSends(cipher, t, user, pkt, before, after, allowed, lookupFails, busy);
    RestoredIs(sent.body, after.crcKey, after.crcBytes);
    RawLength(account.username);
    RawLength(account.password);
    NameKeyIs(typed.value.username);
  }

  /** The key a typed name is looked up under. */
  function NameKey(username: seq<byte>): string {
    Text.Lower(Text.Trim(Chars(username)))
  }

  lemma NameKeyIs(username: seq<byte>)
    ensures NameKey(username) == Text.Lower(Text.Trim(Chars(username)))
  {
  }

  lemma RawLength(s: string)
    ensures |Raw(s)| == |s|
  {
  }

  lemma LoginUsesCRC(cipher: BlockCipher, pkt: seq<byte>)
    requires ParseLoginPacket(cipher, pkt).Some?
    ensures PacketUsesCRC(pkt) && |pkt| >= 2
  {
    assert pkt[0] == pkt[..5][0] && pkt[1] == pkt[..5][1];
  }

  lemma RestoredIs(body: seq<byte>, key: bv32, crcBytes: byte)
    requires PacketUsesCRC(body)
    ensures Restored(body, key, crcBytes) == body + Trailer(body, key, crcBytes)
  {
  }

  lemma SentIsRewritten(cipher: BlockCipher, t: Tables, user: nat, body: seq<byte>, allowed: bool, lookupFails: bool,
                        busy: set<nat>)
    requires SpliceOf(cipher, t, user, body, allowed, lookupFails, busy).Send?
    ensures var sent := SpliceOf(cipher, t, user, body, allowed, lookupFails, busy);
      var parsed := ParseLoginPacket(cipher, body);
      && parsed.Some? && InBounds(parsed.value) && sent.account in t.accounts
      && var account := t.accounts[sent.account];
         var u, p := Raw(account.username), Raw(account.password);
         && Rewritten(cipher, parsed.value, u, p) == Ok(sent.body)
         && |u| + |p| + 2 <= 232
         && sent.retryTyped == (parsed.value.password != p)
         && sent.account == Picked(ResolveLoginCandidates(t, user, Chars(parsed.value.username)), busy) != 0
  {
    hide ParseLoginPacket, ResolveLoginCandidates, Picked, Rewritten, Chars, Raw;
    ParsedInBounds(cipher, body);
    var sent := SpliceOf(cipher, t, user, body, allowed, lookupFails, busy);
    var account := t.accounts[sent.account];
    RewriteFits(cipher, body, Raw(account.username), Raw(account.password));
  }

  lemma UplinkSends(cipher: BlockCipher, t: Tables, user: nat, pkt: seq<byte>, before: State, after: State,
                    allowed: bool, lookupFails: bool, busy: set<nat>)
    requires 0 < |pkt| <= MAX_RELAY_PAYLOAD
    requires SpliceOf(cipher, t, user, StripForParse(pkt, before.crcBytes), allowed, lookupFails, busy).Send?
    ensures var sent := SpliceOf(cipher, t, user, StripForParse(pkt, before.crcBytes), allowed, lookupFails, busy);
      UplinkOf(cipher, t, user, Some(pkt), true, before, after, allowed, lookupFails, busy)
      == (Emit(Restored(sent.body, after.crcKey, after.crcBytes)), if sent.retryTyped then after.SetFallback(pkt) else after)
  {
    hide SpliceOf, Restored, StripForParse;
  }

  /** A datagram that is no login, or whose typed name finds no account or cannot be looked up,
      leaves byte for byte as it came, and arms nothing; so does any that is not to be spliced. */
  lemma UnsplicedIsUnchanged(cipher: BlockCipher, t: Tables, user: nat, pkt: seq<byte>, splice: bool, before: State,
                             after: State, allowed: bool, lookupFails: bool, busy: set<nat>)
    requires Valid(t) && 0 < |pkt| <= MAX_RELAY_PAYLOAD
    ensures var body := StripForParse(pkt, before.crcBytes);
      || !splice
      || ParseLoginPacket(cipher, body).None?
      || (allowed && (lookupFails || Candidates(cipher, t, user, body) == []))
      ==> UplinkOf(cipher, t, user, Some(pkt), splice, before, after, allowed, lookupFails, busy) == (Emit(pkt), after)
  {
    hide SpliceOf, Restored, StripForParse, ParseLoginPacket, ResolveLoginCandidates, Picked, Valid;
    SpliceOutcome(cipher, t, user, StripForParse(pkt, before.crcBytes), allowed, lookupFails, busy);
  }
}
