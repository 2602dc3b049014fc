// The session protocol's framing: transport opcodes, session responses, the optional CRC
// trailer, and the walk over application opcodes inside nested Combined datagrams.
module Soe {
  import opened Bytes
  import opened Wrappers
  import Crc32

  const OP_SESSION_REQUEST := 0x0001
  const OP_SESSION_RESPONSE := 0x0002
  const OP_COMBINED := 0x0003
  const OP_DISCONNECT := 0x0005
  const OP_PACKET := 0x0009
  const OP_FRAGMENT := 0x000D

  const APP_CHAT_MESSAGE := 0x0016
  const APP_SERVER_LIST_RESPONSE := 0x0018

  function BigEndian16(hi: byte, lo: byte): int {
    256 * hi + lo
  }

  function LittleEndian16(lo: byte, hi: byte): int {
    256 * hi + lo
  }

  function TransportOpcode(data: seq<byte>): int {
    if |data| < 2 then 0 else BigEndian16(data[0], data[1])
  }

  predicate PacketUsesCRC(data: seq<byte>) {
    TransportOpcode(data) != OP_SESSION_REQUEST && TransportOpcode(data) != OP_SESSION_RESPONSE
  }

  // ----- Session responses -----

  datatype SessionResponse = SessionResponse(encodeKey: bv32, crcBytes: byte)

  function BigEndianWord(b: seq<byte>): bv32
    requires |b| == 4
  {
    (Word(b[0]) << 24) | (Word(b[1]) << 16) | (Word(b[2]) << 8) | Word(b[3])
  }

  function ParseSessionResponse(data: seq<byte>): Option<SessionResponse> {
    if |data| < 17 || TransportOpcode(data) != OP_SESSION_RESPONSE then None
    else Some(SessionResponse(BigEndianWord(data[6..10]), data[10]))
  }

  lemma WordParts(a: bv32, b: bv32, c: bv32, d: bv32)
    requires a < 0x100 && b < 0x100 && c < 0x100 && d < 0x100
    ensures var w := (a << 24) | (b << 16) | (c << 8) | d;
      w >> 24 == a && (w >> 16) & 0xFF == b && (w >> 8) & 0xFF == c && w & 0xFF == d
  {
  }

  lemma WordSmall(b: byte)
    ensures Word(b) < 0x100
  {
    ExtendSmall(b as bv8);
  }

  lemma ExtendSmall(b: bv8)
    ensures (b as bv32) < 0x100
  {
  }

  /** The session responses are the datagrams of at least 17 bytes that start 0, 2. The key is
      bytes 6 to 9, high byte first, and the width is byte 10. */
  lemma SessionResponseIs(data: seq<byte>)
    ensures ParseSessionResponse(data).Some? <==> |data| >= 17 && data[0] == 0 && data[1] == 2
    ensures ParseSessionResponse(data).Some? ==>
      var SessionResponse(key, width) := ParseSessionResponse(data).value;
      && key >> 24 == Word(data[6])
      && (key >> 16) & 0xFF == Word(data[7])
      && (key >> 8) & 0xFF == Word(data[8])
      && key & 0xFF == Word(data[9])
      && width == data[10]
  {
    hide Word;
    if ParseSessionResponse(data).Some? {
      forall b: byte { WordSmall(b); }
      WordParts(Word(data[6]), Word(data[7]), Word(data[8]), Word(data[9]));
    }
  }

  // ----- The CRC trailer -----

  /** Byte `place` of a word, the lowest being byte 0. */
  function ByteOf(w: bv32, place: nat): byte
    requires place < 4
  {
    match place
    case 0 => LowByte(w)
    case 1 => LowByte(w >> 8)
    case 2 => LowByte(w >> 16)
    case 3 => LowByte(w >> 24)
  }

  /** The checksum bytes, high byte first; every width but 0 and 2 gets all four. */
  function Trailer(packet: seq<byte>, key: bv32, crcBytes: byte): (t: seq<byte>)
    ensures |t| == if crcBytes == 0 then 0 else if crcBytes == 2 then 2 else 4
  {
    var crc := Crc32.Checksum(packet, key);
    if crcBytes == 0 then []
    else if crcBytes == 2 then [ByteOf(crc, 1), ByteOf(crc, 0)]
    else [ByteOf(crc, 3), ByteOf(crc, 2), ByteOf(crc, 1), ByteOf(crc, 0)]
  }

  lemma PartsOfWord(w: bv32)
    ensures (w >> 24) & 0xFF == w >> 24
    ensures ((w >> 24) << 24) | (((w >> 16) & 0xFF) << 16) | (((w >> 8) & 0xFF) << 8) | (w & 0xFF) == w
    ensures (((w >> 8) & 0xFF) << 8) | (w & 0xFF) == w & 0xFFFF
  {
  }

  lemma BytesOf(w: bv32)
    ensures Word(ByteOf(w, 0)) == w & 0xFF && Word(ByteOf(w, 1)) == (w >> 8) & 0xFF
    ensures Word(ByteOf(w, 2)) == (w >> 16) & 0xFF && Word(ByteOf(w, 3)) == (w >> 24) & 0xFF
  {
    hide Word, LowByte;
    WordOfLowByte(w);
    WordOfLowByte(w >> 8);
    WordOfLowByte(w >> 16);
    WordOfLowByte(w >> 24);
  }

  lemma WholeWord(b: seq<byte>, w: bv32)
    requires |b| == 4 && Word(b[0]) == (w >> 24) & 0xFF && Word(b[1]) == (w >> 16) & 0xFF
    requires Word(b[2]) == (w >> 8) & 0xFF && Word(b[3]) == w & 0xFF
    ensures BigEndianWord(b) == w
  {
    hide Word;
    PartsOfWord(w);
  }

  lemma HalfWord(b: seq<byte>, w: bv32)
    requires |b| == 4 && Word(b[0]) == 0 && Word(b[1]) == 0
    requires Word(b[2]) == (w >> 8) & 0xFF && Word(b[3]) == w & 0xFF
    ensures BigEndianWord(b) == w & 0xFFFF
  {
    hide Word;
    PartsOfWord(w);
  }

  lemma WordOfZero()
    ensures Word(0) == 0
  {
  }

  /** The trailer read back, high byte first, is the checksum, or its low half. */
  lemma TrailerIsChecksum(packet: seq<byte>, key: bv32, crcBytes: byte)
    ensures var t, crc := Trailer(packet, key, crcBytes), Crc32.Checksum(packet, key);
      if crcBytes == 0 then t == []
      else if crcBytes == 2 then |t| == 2 && BigEndianWord([0, 0] + t) == crc & 0xFFFF
      else |t| == 4 && BigEndianWord(t) == crc
  {
    hide Crc32.Checksum, BigEndianWord, ByteOf, Word;
    var t, crc := Trailer(packet, key, crcBytes), Crc32.Checksum(packet, key);
    BytesOf(crc);
    WordOfZero();
    if crcBytes == 2 {
      HalfWord([0, 0] + t, crc);
    } else if crcBytes != 0 {
      WholeWord(t, crc);
    }
  }

  method AppendCRC(packet: seq<byte>, key: bv32, crcBytes: byte) returns (out: seq<byte>)
    ensures out == packet + Trailer(packet, key, crcBytes)
  {
    hide Crc32.Checksum, ByteOf;
    if crcBytes == 0 {
      return packet;
    }
    var crc := Crc32.SOECRC32(packet, key);
    out := packet;
    if crcBytes == 2 {
      out := out + [ByteOf(crc, 1), ByteOf(crc, 0)];
    } else {
      out := out + [ByteOf(crc, 3), ByteOf(crc, 2), ByteOf(crc, 1), ByteOf(crc, 0)];
    }
  }

  function StripCRC(packet: seq<byte>, crcBytes: byte): seq<byte> {
    if crcBytes == 0 || |packet| < crcBytes then packet else packet[..|packet| - crcBytes]
  }

  function StripForParse(pkt: seq<byte>, crcBytes: byte): seq<byte> {
    if crcBytes == 0 || !PacketUsesCRC(pkt) then pkt else StripCRC(pkt, crcBytes)
  }

  function Restored(pkt: seq<byte>, key: bv32, crcBytes: byte): seq<byte> {
    if crcBytes == 0 || !PacketUsesCRC(pkt) then pkt else pkt + Trailer(pkt, key, crcBytes)
  }

  method RestoreCRC(pkt: seq<byte>, key: bv32, crcBytes: byte) returns (out: seq<byte>)
    ensures out == Restored(pkt, key, crcBytes)
  {
    if crcBytes == 0 || !PacketUsesCRC(pkt) {
      return pkt;
    }
    out := AppendCRC(pkt, key, crcBytes);
  }

  /** Stripping undoes restoring exactly for the widths the protocol has, or where no trailer
      is used at all. */
  lemma StripRestores(pkt: seq<byte>, key: bv32, crcBytes: byte)
    requires |pkt| >= 2
    ensures StripForParse(Restored(pkt, key, crcBytes), crcBytes) == pkt
       <==> crcBytes in {0, 2, 4} || !PacketUsesCRC(pkt)
  {
    var out := Restored(pkt, key, crcBytes);
    if crcBytes != 0 && PacketUsesCRC(pkt) {
      hide Trailer;
      assert out[0] == pkt[0] && out[1] == pkt[1];
      assert PacketUsesCRC(out);
      if crcBytes == 2 || crcBytes == 4 {
        assert |out| == |pkt| + crcBytes by { TrailerLength(pkt, key, crcBytes); }
        assert out[..|pkt|] == pkt;
      } else {
        TrailerLength(pkt, key, crcBytes);
        assert |StripForParse(out, crcBytes)| != |pkt|;
      }
    }
  }

  lemma TrailerLength(pkt: seq<byte>, key: bv32, crcBytes: byte)
    ensures |Trailer(pkt, key, crcBytes)| == if crcBytes == 0 then 0 else if crcBytes == 2 then 2 else 4
  {
  }

  /** The bound on the length is needed: a one-byte body gets its second byte from the
      trailer, and under some key that spells a session opcode, so nothing is stripped. */
  lemma ShortBodyNotStripped() returns (key: bv32)
    ensures StripForParse(Restored([0], key, 4), 4) != [0]
  {
    hide Crc32.Checksum, Crc32.KeyFor;
    key := Crc32.KeyFor([0], 0x01000000);
    Crc32.KeyAndChecksum([0], key, 0x01000000);
    var out := Restored([0], key, 4);
    assert out[1] == LowByte(0x01000000 >> 24);
    assert (0x01000000 as bv32 >> 24) == 1;
    assert LowByte(1) == 1 by { LowByteOfOne(); }
    assert TransportOpcode(out) == OP_SESSION_REQUEST;
  }

  lemma LowByteOfOne()
    ensures LowByte(1) == 1
  {
    Int8RoundTrip(1);
    assert ((1 as bv32 & 0xFF) as bv8) == 1;
  }

  // ----- The walk over application opcodes -----

  /** The application opcodes a datagram carries, in order; Combined datagrams nest. */
  function AppOpcodes(pkt: seq<byte>): seq<int>
    decreases |pkt|, 0
  {
    if TransportOpcode(pkt) == OP_PACKET then
      if |pkt| >= 6 then [LittleEndian16(pkt[4], pkt[5])] else []
    else if TransportOpcode(pkt) == OP_COMBINED then SubOpcodes(pkt[2..])
    else []
  }

  /** The opcodes of length-prefixed subpackets, up to the first bad length. */
  function SubOpcodes(rest: seq<byte>): seq<int>
    decreases |rest|, 1
  {
    if rest == [] || rest[0] == 0 || 1 + rest[0] > |rest| then []
    else AppOpcodes(rest[1..1 + rest[0]]) + SubOpcodes(rest[1 + rest[0]..])
  }

  /** Some opcode of the list satisfies fn. */
  ghost predicate Hits(ops: seq<int>, fn: int -> bool) {
    exists op :: op in ops && fn(op)
  }

  lemma HitsAppend(a: seq<int>, b: seq<int>, fn: int -> bool)
    ensures Hits(a + b, fn) <==> Hits(a, fn) || Hits(b, fn)
  {
    assert forall op :: op in a + b <==> op in a || op in b;
  }

  /** One round of the cursor loop at position i. */
  lemma SubpacketAt(pkt: seq<byte>, i: nat)
    requires i < |pkt|
    ensures var n := pkt[i];
      if n == 0 || i + 1 + n > |pkt| then SubOpcodes(pkt[i..]) == []
      else SubOpcodes(pkt[i..]) == AppOpcodes(pkt[i + 1..i + 1 + n]) + SubOpcodes(pkt[i + 1 + n..])
  {
    hide AppOpcodes;
    var rest, n := pkt[i..], pkt[i];
    if i + 1 + n <= |pkt| {
      assert rest[1..1 + n] == pkt[i + 1..i + 1 + n] && rest[1 + n..] == pkt[i + 1 + n..];
    }
  }

  /** The cursor loop terminates on every datagram and reports exactly whether some carried
      opcode satisfies fn. */
  method WalkAppOpcodes(pkt: seq<byte>, fn: int -> bool) returns (hit: bool)
    ensures hit <==> Hits(AppOpcodes(pkt), fn)
    decreases |pkt|
  {
    hide SubOpcodes, Hits;
    HitsFew(0, fn);
    if TransportOpcode(pkt) == OP_PACKET {
      if |pkt| >= 6 {
        HitsFew(LittleEndian16(pkt[4], pkt[5]), fn);
        return fn(LittleEndian16(pkt[4], pkt[5]));
      }
    } else if TransportOpcode(pkt) == OP_COMBINED {
      var i := 2;
      while i < |pkt|
        invariant 2 <= i <= |pkt|
        invariant Hits(SubOpcodes(pkt[2..]), fn) <==> Hits(SubOpcodes(pkt[i..]), fn)
      {
        SubpacketAt(pkt, i);
        var n := pkt[i];
        i := i + 1;
        if n <= 0 || i + n > |pkt| {
          return false;
        }
        var sub := pkt[i..i + n];
        i := i + n;
        HitsAppend(AppOpcodes(sub), SubOpcodes(pkt[i..]), fn);
        var found := WalkAppOpcodes(sub, fn);
        if found {
          return true;
        }
      }
      SubpacketsEnd(pkt);
    }
    return false;
  }

  lemma HitsFew(op: int, fn: int -> bool)
    ensures !Hits([], fn)
    ensures Hits([op], fn) <==> fn(op)
  {
    assert op in [op];
  }

  lemma SubpacketsEnd(pkt: seq<byte>)
    ensures SubOpcodes(pkt[|pkt|..]) == []
  {
  }

  /** The text match on the whole datagram ("invalid username" and "invalid password",
      ignoring case) is a parameter. */
  ghost predicate FailureReply(pkt: seq<byte>, rejects: seq<byte> -> bool) {
    |pkt| >= 2 && (TransportOpcode(pkt) == OP_DISCONNECT || rejects(pkt) || APP_CHAT_MESSAGE in AppOpcodes(pkt))
  }

  ghost predicate SuccessReply(pkt: seq<byte>) {
    TransportOpcode(pkt) == OP_FRAGMENT || APP_SERVER_LIST_RESPONSE in AppOpcodes(pkt)
  }

  method LooksLikeLoginFailure(pkt: seq<byte>, rejects: seq<byte> -> bool) returns (failed: bool)
    ensures failed == FailureReply(pkt, rejects)
  {
    if |pkt| < 2 {
      return false;
    }
    if TransportOpcode(pkt) == OP_DISCONNECT {
      return true;
    }
    if rejects(pkt) {
      return true;
    }
    failed := WalkAppOpcodes(pkt, app => app == APP_CHAT_MESSAGE);
    assert Hits(AppOpcodes(pkt), app => app == APP_CHAT_MESSAGE) <==> APP_CHAT_MESSAGE in AppOpcodes(pkt);
  }

  method LooksLikeLoginSuccess(pkt: seq<byte>) returns (ok: bool)
    ensures ok == SuccessReply(pkt)
  {
    if TransportOpcode(pkt) == OP_FRAGMENT {
      return true;
    }
    ok := WalkAppOpcodes(pkt, app => app == APP_SERVER_LIST_RESPONSE);
    assert Hits(AppOpcodes(pkt), app => app == APP_SERVER_LIST_RESPONSE) <==> APP_SERVER_LIST_RESPONSE in AppOpcodes(pkt);
  }

  // ----- Building Combined datagrams, the inverse of the walk -----

  predicate Framable(sub: seq<byte>) {
    0 < |sub| < 256
  }

  function Frames(subs: seq<seq<byte>>): seq<byte>
    requires forall i :: 0 <= i < |subs| ==> Framable(subs[i])
  {
    if subs == [] then []
    else
      assert Framable(subs[0]);
      var length: byte := |subs[0]|;
      [length] + subs[0] + Frames(subs[1..])
  }

  function Concatenated(subs: seq<seq<byte>>): seq<int> {
    if subs == [] then [] else AppOpcodes(subs[0]) + Concatenated(subs[1..])
  }

  lemma CombinedOpcodes(pkt: seq<byte>)
    requires |pkt| >= 2 && pkt[0] == 0 && pkt[1] == 3
    ensures AppOpcodes(pkt) == SubOpcodes(pkt[2..])
  {
    hide SubOpcodes;
  }

  lemma BadTail(tail: seq<byte>)
    requires tail == [] || tail[0] == 0 || 1 + tail[0] > |tail|
    ensures SubOpcodes(tail) == []
  {
    hide AppOpcodes;
  }

  lemma FramesStep(subs: seq<seq<byte>>, tail: seq<byte>)
    requires subs != [] && forall i :: 0 <= i < |subs| ==> Framable(subs[i])
    ensures SubOpcodes(Frames(subs) + tail) == AppOpcodes(subs[0]) + SubOpcodes(Frames(subs[1..]) + tail)
  {
    hide AppOpcodes, SubOpcodes;
    var rest, n := Frames(subs) + tail, |subs[0]|;
    assert rest == [n] + subs[0] + (Frames(subs[1..]) + tail);
    assert rest[1..1 + n] == subs[0];
    assert rest[1 + n..] == Frames(subs[1..]) + tail;
    assert rest[0..] == rest;
    SubpacketAt(rest, 0);
  }

  /** Walking a Combined datagram visits the opcodes of its subpackets in order, at every
      depth of nesting; a tail with a bad length adds nothing. */
  lemma {:induction false} WalkOfFrames(subs: seq<seq<byte>>, tail: seq<byte>)
    requires forall i :: 0 <= i < |subs| ==> Framable(subs[i])
    requires tail == [] || tail[0] == 0 || 1 + tail[0] > |tail|
    ensures SubOpcodes(Frames(subs) + tail) == Concatenated(subs)
    ensures AppOpcodes([0, 3] + Frames(subs) + tail) == Concatenated(subs)
  {
    hide AppOpcodes, SubOpcodes;
    var pkt, rest := [0, 3] + Frames(subs) + tail, Frames(subs) + tail;
    assert pkt[2..] == rest;
    CombinedOpcodes(pkt);
    if subs == [] {
      assert rest == tail;
      BadTail(tail);
    } else {
      FramesStep(subs, tail);
      WalkOfFrames(subs[1..], tail);
    }
  }

  /** Only what starts 0, 1 or 0, 2 goes without a trailer. */
  lemma UsesCRC(pkt: seq<byte>)
    ensures PacketUsesCRC(pkt) <==> !(|pkt| >= 2 && pkt[0] == 0 && (pkt[1] == 1 || pkt[1] == 2))
  {
  }

  /** Stripping takes as many bytes as the width says off the end, whatever they are, where there
      are that many, and leaves the session opcodes alone. */
  lemma StrippedIs(pkt: seq<byte>, crcBytes: byte)
    ensures StripForParse(pkt, crcBytes)
         == if |pkt| < crcBytes || (|pkt| >= 2 && pkt[0] == 0 && (pkt[1] == 1 || pkt[1] == 2)) then pkt
            else pkt[..|pkt| - crcBytes]
  {
    UsesCRC(pkt);
  }

  /** An application packet carries the opcode in its bytes 4 and 5, low byte first. */
  lemma PacketOpcode(pkt: seq<byte>)
    requires |pkt| >= 2 && pkt[0] == 0 && pkt[1] == 9
    ensures |pkt| < 6 ==> AppOpcodes(pkt) == []
    ensures |pkt| >= 6 ==> var low: int, high: int := pkt[4], pkt[5]; AppOpcodes(pkt) == [low + 256 * high]
  {
  }

  /** Which datagrams that nothing is nested in are replies, byte by byte. */
  lemma PlainReplies(pkt: seq<byte>, rejects: seq<byte> -> bool)
    requires !(|pkt| >= 2 && pkt[0] == 0 && pkt[1] == 3)
    ensures var packet := |pkt| >= 6 && pkt[0] == 0 && pkt[1] == 9 && pkt[5] == 0;
      && (FailureReply(pkt, rejects) <==>
            |pkt| >= 2 && ((pkt[0] == 0 && pkt[1] == 5) || rejects(pkt) || (packet && pkt[4] == 0x16)))
      && (SuccessReply(pkt) <==> (|pkt| >= 2 && pkt[0] == 0 && pkt[1] == 0x0D) || (packet && pkt[4] == 0x18))
  {
    hide SubOpcodes;
  }

  /** A Combined datagram is a reply when one of its subpackets carries the opcode of one, or
      by the text of the whole. */
  lemma CombinedReplies(subs: seq<seq<byte>>, rejects: seq<byte> -> bool)
    requires forall i :: 0 <= i < |subs| ==> Framable(subs[i])
    ensures var pkt := [0, 3] + Frames(subs);
      && (FailureReply(pkt, rejects) <==> rejects(pkt) || exists sub :: sub in subs && 0x16 in AppOpcodes(sub))
      && (SuccessReply(pkt) <==> exists sub :: sub in subs && 0x18 in AppOpcodes(sub))
  {
    hide AppOpcodes, SubOpcodes, Frames;
    WalkOfFrames(subs, []);
    assert [0, 3] + Frames(subs) + [] == [0, 3] + Frames(subs);
    InConcatenated(subs, 0x16);
    InConcatenated(subs, 0x18);
  }

  lemma {:induction false} InConcatenated(subs: seq<seq<byte>>, op: int)
    ensures op in Concatenated(subs) <==> exists sub :: sub in subs && op in AppOpcodes(sub)
  {
    hide AppOpcodes;
    if subs != [] {
      InConcatenated(subs[1..], op);
      assert subs == [subs[0]] + subs[1..];
      assert subs[0] in subs && forall sub :: sub in subs <==> sub == subs[0] || sub in subs[1..];
      assert op in Concatenated(subs) <==> op in AppOpcodes(subs[0]) || op in Concatenated(subs[1..]);
    }
  }
}
