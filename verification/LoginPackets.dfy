// The Combined login datagram: an ACK subpacket, then one application packet whose body
// ends in the encrypted credentials. The relay parses it, swaps the credentials for those
// of a vault account, and repairs the one-byte subpacket length.
module LoginPackets {
  import opened Bytes
  import opened BlockCiphers
  import opened DesWire
  import opened Soe
  import opened Wrappers

  const LOGIN_BASE_SIZE := 10
  const ACK_END := 7
  const LOGIN_SUB_HEADER := 6
  const LOGIN_ENC_OFFSET := LOGIN_SUB_HEADER + LOGIN_BASE_SIZE
  const LOGIN_PREFIX: seq<byte> := [0x00, 0x03, 0x04, 0x00, 0x15]

  datatype LoginPacket = LoginPacket(
    buf: seq<byte>,
    username: seq<byte>,
    password: seq<byte>,
    sub2Offset: nat,
    sub2Len: nat,
    encOffset: nat
  )

  /** The string before the first zero byte, or all of s. */
  function UpToNul(s: seq<byte>): (r: seq<byte>)
    ensures |r| <= |s| && r == s[..|r|] && NulFree(r)
    ensures |r| < |s| ==> s[|r|] == 0
  {
    if s == [] || s[0] == 0 then [] else [s[0]] + UpToNul(s[1..])
  }

  function AfterNul(s: seq<byte>): seq<byte> {
    var n := |UpToNul(s)|;
    if n < |s| then s[n + 1..] else []
  }

  function DecryptCredentials(cipher: BlockCipher, encrypted: seq<byte>): Option<(seq<byte>, seq<byte>)> {
    match Decrypted(cipher, encrypted)
    case None => None
    case Some(pt) => Some((UpToNul(pt), UpToNul(AfterNul(pt))))
  }

  function ParseLoginPacket(cipher: BlockCipher, buf: seq<byte>): Option<LoginPacket> {
    if |buf| < 30 || buf[..5] != LOGIN_PREFIX then None
    else
      var sub2Len := buf[ACK_END];
      var sub2Start := ACK_END + 1;
      if sub2Start + sub2Len > |buf| || sub2Len < LOGIN_SUB_HEADER then None
      else
        var sub2 := buf[sub2Start..sub2Start + sub2Len];
        if BigEndian16(sub2[0], sub2[1]) != OP_PACKET then None
        else if LittleEndian16(sub2[4], sub2[5]) != 0x0002 then None
        else if |sub2| <= LOGIN_ENC_OFFSET then None
        else
          match DecryptCredentials(cipher, sub2[LOGIN_ENC_OFFSET..])
          case None => None
          case Some((user, pass)) => Some(LoginPacket(buf, user, pass, sub2Start, sub2Len, LOGIN_ENC_OFFSET))
  }

  // ----- Splicing -----

  /** The regions of a packet that can be spliced lie inside its buffer. */
  predicate InBounds(lp: LoginPacket) {
    && 0 < lp.sub2Offset
    && lp.encOffset <= lp.sub2Len
    && lp.sub2Offset + lp.sub2Len <= |lp.buf|
  }

  method SpliceEncryptedCredentials(lp: LoginPacket, encrypted: seq<byte>) returns (r: Result<seq<byte>, string>)
    requires InBounds(lp)
    ensures r == Spliced(lp, encrypted)
  {
    var newSubLen := lp.encOffset + |encrypted|;
    if newSubLen > 0xFF {
      return Err("login subpacket too large");
    }
    var absStart := lp.sub2Offset + lp.encOffset;
    var absEnd := lp.sub2Offset + lp.sub2Len;
    var out := lp.buf[..absStart];
    out := out + encrypted;
    out := out + lp.buf[absEnd..];
    out := out[lp.sub2Offset - 1 := newSubLen];
    r := Ok(out);
  }

  function Spliced(lp: LoginPacket, encrypted: seq<byte>): Result<seq<byte>, string>
    requires InBounds(lp)
  {
    var newSubLen := lp.encOffset + |encrypted|;
    if newSubLen > 0xFF then Err("login subpacket too large")
    else
      var absStart, absEnd := lp.sub2Offset + lp.encOffset, lp.sub2Offset + lp.sub2Len;
      Ok((lp.buf[..absStart] + encrypted + lp.buf[absEnd..])[lp.sub2Offset - 1 := newSubLen])
  }

  function Rewritten(cipher: BlockCipher, lp: LoginPacket, username: seq<byte>, password: seq<byte>)
    : Result<seq<byte>, string>
    requires InBounds(lp)
  {
    Spliced(lp, Encrypted(cipher, PackedPlain(username, password)))
  }

  method RewriteCredentials(cipher: BlockCipher, lp: LoginPacket, username: seq<byte>, password: seq<byte>)
    returns (r: Result<seq<byte>, string>)
    requires InBounds(lp)
    ensures r == Rewritten(cipher, lp, username, password)
  {
    var ct := PackCredentials(cipher, username, password);
    r := SpliceEncryptedCredentials(lp, ct);
  }

  // ----- Credentials survive packing -----

  lemma {:induction false} UpToNulOfTerminated(s: seq<byte>, rest: seq<byte>)
    requires NulFree(s)
    ensures UpToNul(s + [0] + rest) == s && AfterNul(s + [0] + rest) == rest
  {
    var t := s + [0] + rest;
    if s == [] {
      assert t[1..] == rest;
    } else {
      assert t[1..] == s[1..] + [0] + rest;
      UpToNulOfTerminated(s[1..], rest);
      assert t[|s| + 1..] == rest;
    }
  }

  /** Packed credentials decrypt to themselves exactly when neither contains a zero byte,
      empty ones included. */
  lemma PackThenDecrypt(cipher: BlockCipher, username: seq<byte>, password: seq<byte>)
    requires cipher.Invertible()
    ensures DecryptCredentials(cipher, Encrypted(cipher, PackedPlain(username, password))) == Some((username, password))
       <==> NulFree(username) && NulFree(password)
  {
    var plain := PackedPlain(username, password);
    DecryptEncrypt(cipher, plain);
    var padding := Zeros(PaddedLength(|plain|) - |plain|);
    var rest := password + [0] + padding;
    assert Padded(plain) == username + [0] + rest;
    if NulFree(username) {
      UpToNulOfTerminated(username, rest);
      if NulFree(password) {
        UpToNulOfTerminated(password, padding);
      }
    }
  }

  // ----- What parses -----

  /** A login datagram, byte by byte: an acknowledgement, then an application packet with the
      login opcode, ten bytes of base message and the ciphertext; and whatever follows. */
  function LoginDatagram(ack: (byte, byte), sequence: (byte, byte), base: seq<byte>, ct: seq<byte>, tail: seq<byte>): seq<byte>
    requires |base| == 10 && |ct| <= 239
  {
    var length: byte := 16 + |ct|;
    [0x00, 0x03, 0x04, 0x00, 0x15, ack.0, ack.1, length, 0x00, 0x09, sequence.0, sequence.1, 0x02, 0x00] + base + ct + tail
  }

  /** Every login datagram that carries the ciphertext of a name and a password without zero
      bytes, and fits its length byte, parses to just these. */
  lemma LoginParses(cipher: BlockCipher, username: seq<byte>, password: seq<byte>, ack: (byte, byte), sequence: (byte, byte),
                    base: seq<byte>, tail: seq<byte>)
    requires cipher.Invertible() && NulFree(username) && NulFree(password)
    requires |username| + |password| + 2 <= 232 && |base| == 10
    ensures var ct := Encrypted(cipher, username + [0] + password + [0]);
      && |ct| <= 232
      && var buf := LoginDatagram(ack, sequence, base, ct, tail);
         ParseLoginPacket(cipher, buf) == Some(LoginPacket(buf, username, password, 8, 16 + |ct|, 16))
  {
    hide Encrypted, DecryptCredentials, NulFree;
    var ct := Encrypted(cipher, PackedPlain(username, password));
    PackedFits(username, password, cipher);
    PackThenDecrypt(cipher, username, password);
    var buf := LoginDatagram(ack, sequence, base, ct, tail);
    assert buf[..5] == LOGIN_PREFIX;
    assert buf[8..24 + |ct|][16..] == ct;
  }

  lemma PackedFits(username: seq<byte>, password: seq<byte>, cipher: BlockCipher)
    requires |username| + |password| + 2 <= 232
    ensures 8 <= |Encrypted(cipher, PackedPlain(username, password))| <= 232
    ensures PackedPlain(username, password) == username + [0] + password + [0]
  {
  }

  /** What parses is a login datagram of whole cipher blocks, and nothing else does. */
  lemma ParsesExactly(cipher: BlockCipher, buf: seq<byte>)
    ensures ParseLoginPacket(cipher, buf).Some? <==>
      && |buf| >= 32
      && buf[0] == 0x00 && buf[1] == 0x03 && buf[2] == 0x04 && buf[3] == 0x00 && buf[4] == 0x15
      && 16 < buf[7] <= |buf| - 8 && buf[7] % 8 == 0
      && buf[8] == 0x00 && buf[9] == 0x09 && buf[12] == 0x02 && buf[13] == 0x00
    ensures ParseLoginPacket(cipher, buf).Some? ==>
      var plain := Decrypted(cipher, buf[24..8 + buf[7]]);
      && plain.Some?
      && ParseLoginPacket(cipher, buf)
         == Some(LoginPacket(buf, UpToNul(plain.value), UpToNul(AfterNul(plain.value)), 8, buf[7], 16))
  {
    hide CbcDecrypt, UpToNul, AfterNul;
    if |buf| >= 24 && 8 + buf[7] <= |buf| && buf[7] > 16 {
      var sub2 := buf[8..8 + buf[7]];
      assert sub2[16..] == buf[24..8 + buf[7]];
      assert sub2[0] == buf[8] && sub2[1] == buf[9] && sub2[4] == buf[12] && sub2[5] == buf[13];
      assert buf[..5] == [buf[0], buf[1], buf[2], buf[3], buf[4]];
    }
  }

  // ----- Rewriting a parsed packet -----

  lemma ParsedInBounds(cipher: BlockCipher, buf: seq<byte>)
    requires ParseLoginPacket(cipher, buf).Some?
    ensures var lp := ParseLoginPacket(cipher, buf).value;
      InBounds(lp) && lp.buf == buf && lp.sub2Offset == 8 && lp.sub2Len == buf[7] && lp.encOffset == 16
  {
  }

  /** The 232 in the bound: one length byte, sixteen bytes of header, whole blocks. */
  lemma RewriteFits(cipher: BlockCipher, buf: seq<byte>, username: seq<byte>, password: seq<byte>)
    requires ParseLoginPacket(cipher, buf).Some?
    ensures Rewritten(cipher, ParseLoginPacket(cipher, buf).value, username, password).Ok?
       <==> |username| + |password| + 2 <= 232
  {
    hide Encrypted, DecryptCredentials;
    ParsedInBounds(cipher, buf);
    var plain := PackedPlain(username, password);
    assert |Encrypted(cipher, plain)| == PaddedLength(|username| + |password| + 2);
    PaddedBound(|username| + |password| + 2);
  }

  lemma PaddedBound(n: nat)
    ensures PaddedLength(n) <= 0xFF - 16 <==> n <= 232
  {
  }

  /** Everything outside the length byte and the ciphertext region is as before. */
  lemma RewriteFrame(cipher: BlockCipher, buf: seq<byte>, username: seq<byte>, password: seq<byte>)
    requires ParseLoginPacket(cipher, buf).Some?
    requires |username| + |password| + 2 <= 232
    ensures var lp := ParseLoginPacket(cipher, buf).value;
      var out := Rewritten(cipher, lp, username, password);
      var ct := Encrypted(cipher, PackedPlain(username, password));
      && out.Ok?
      && |out.value| == 24 + |ct| + (|buf| - 8 - buf[7])
      && out.value[..7] == buf[..7]
      && out.value[7] == 16 + |ct|
      && out.value[8..24] == buf[8..24]
      && out.value[24..24 + |ct|] == ct
      && out.value[24 + |ct|..] == buf[8 + buf[7]..]
  {
    hide ParseLoginPacket, Encrypted;
    RewriteFits(cipher, buf, username, password);
    ParsedInBounds(cipher, buf);
    var lp := ParseLoginPacket(cipher, buf).value;
    ParsedLongEnough(cipher, buf);
    SpliceFrame(lp, Encrypted(cipher, PackedPlain(username, password)));
  }

  lemma ParsedLongEnough(cipher: BlockCipher, buf: seq<byte>)
    requires ParseLoginPacket(cipher, buf).Some?
    ensures 8 + buf[7] <= |buf| && buf[7] > 16
  {
  }

  lemma SpliceFrame(lp: LoginPacket, ct: seq<byte>)
    requires lp.sub2Offset == 8 && lp.encOffset == 16 && 16 < lp.sub2Len && 8 + lp.sub2Len <= |lp.buf|
    requires 16 + |ct| <= 0xFF
    ensures var out := Spliced(lp, ct);
      && out.Ok?
      && |out.value| == 24 + |ct| + (|lp.buf| - 8 - lp.sub2Len)
      && out.value[..7] == lp.buf[..7]
      && out.value[7] == 16 + |ct|
      && out.value[8..24] == lp.buf[8..24]
      && out.value[24..24 + |ct|] == ct
      && out.value[24 + |ct|..] == lp.buf[8 + lp.sub2Len..]
  {
    var out := Spliced(lp, ct).value;
    var joined := lp.buf[..24] + ct + lp.buf[8 + lp.sub2Len..];
    assert out == joined[7 := 16 + |ct|];
    assert out[24..24 + |ct|] == joined[24..24 + |ct|] == ct;
    assert out[24 + |ct|..] == joined[24 + |ct|..] == lp.buf[8 + lp.sub2Len..];
  }

  /** A rewritten packet is again a login packet with the same layout, and what it decrypts
      to is what its ciphertext decrypts to. */
  lemma RewriteParses(cipher: BlockCipher, buf: seq<byte>, username: seq<byte>, password: seq<byte>)
    requires cipher.Invertible()
    requires ParseLoginPacket(cipher, buf).Some?
    requires |username| + |password| + 2 <= 232
    ensures var out := Rewritten(cipher, ParseLoginPacket(cipher, buf).value, username, password).value;
      var ct := Encrypted(cipher, PackedPlain(username, password));
      var credentials := DecryptCredentials(cipher, ct);
      && credentials.Some?
      && ParseLoginPacket(cipher, out)
         == Some(LoginPacket(out, credentials.value.0, credentials.value.1, 8, 16 + |ct|, 16))
  {
    hide Encrypted, Rewritten, DecryptCredentials;
    RewriteFrame(cipher, buf, username, password);
    var out := Rewritten(cipher, ParseLoginPacket(cipher, buf).value, username, password).value;
    var ct := Encrypted(cipher, PackedPlain(username, password));
    assert |PackedPlain(username, password)| >= 2;
    CiphertextDecrypts(cipher, PackedPlain(username, password));
    assert out[..5] == out[..7][..5] == buf[..7][..5] == buf[..5];
    assert out[8..24][0] == out[8] && out[8..24][1] == out[9];
    assert buf[8..24][0] == buf[8] && buf[8..24][1] == buf[9];
    assert out[8..24][4] == out[12] && out[8..24][5] == out[13];
    assert buf[8..24][4] == buf[12] && buf[8..24][5] == buf[13];
    var sub2 := out[8..24 + |ct|];
    assert sub2[16..] == ct;
  }

  lemma CiphertextDecrypts(cipher: BlockCipher, plain: seq<byte>)
    requires cipher.Invertible() && plain != []
    ensures DecryptCredentials(cipher, Encrypted(cipher, plain)).Some?
    ensures |Encrypted(cipher, plain)| >= 8
  {
    DecryptEncrypt(cipher, plain);
  }

  /** Rewrite, then parse: the new credentials come back exactly when they are C strings. */
  lemma RewriteThenParse(cipher: BlockCipher, buf: seq<byte>, username: seq<byte>, password: seq<byte>)
    requires cipher.Invertible()
    requires ParseLoginPacket(cipher, buf).Some?
    requires |username| + |password| + 2 <= 232
    ensures var out := Rewritten(cipher, ParseLoginPacket(cipher, buf).value, username, password).value;
      var again := ParseLoginPacket(cipher, out);
      again.Some? && (again.value.username == username && again.value.password == password
                      <==> NulFree(username) && NulFree(password))
  {
    hide Encrypted, Rewritten, DecryptCredentials, ParseLoginPacket;
    RewriteParses(cipher, buf, username, password);
    PackThenDecrypt(cipher, username, password);
  }

  /** A second rewrite makes the first irrelevant. */
  lemma RewriteTwice(cipher: BlockCipher, buf: seq<byte>, u1: seq<byte>, p1: seq<byte>, u2: seq<byte>, p2: seq<byte>)
    requires cipher.Invertible()
    requires ParseLoginPacket(cipher, buf).Some?
    requires |u1| + |p1| + 2 <= 232
    ensures var lp := ParseLoginPacket(cipher, buf).value;
      var lp1 := ParseLoginPacket(cipher, Rewritten(cipher, lp, u1, p1).value);
      lp1.Some? && InBounds(lp1.value) && Rewritten(cipher, lp1.value, u2, p2) == Rewritten(cipher, lp, u2, p2)
  {
    hide Encrypted, DecryptCredentials;
    RewriteFrame(cipher, buf, u1, p1);
    RewriteParses(cipher, buf, u1, p1);
    var lp := ParseLoginPacket(cipher, buf).value;
    var out1 := Rewritten(cipher, lp, u1, p1).value;
    ParsedInBounds(cipher, out1);
    RewriteFits(cipher, buf, u2, p2);
    RewriteFits(cipher, out1, u2, p2);
    if |u2| + |p2| + 2 <= 232 {
      var n := out1[7];
      assert out1[..24][7 := 0] == buf[..24][7 := 0] by {
        assert out1[..24] == out1[..7] + [n] + out1[8..24];
        assert buf[..24] == buf[..7] + [buf[7]] + buf[8..24];
      }
      var ct2 := Encrypted(cipher, PackedPlain(u2, p2));
      var tail := buf[8 + buf[7]..];
      assert (out1[..24] + ct2 + tail)[7 := 16 + |ct2|] == out1[..24][7 := 16 + |ct2|] + ct2 + tail;
      assert (buf[..24] + ct2 + tail)[7 := 16 + |ct2|] == buf[..24][7 := 16 + |ct2|] + ct2 + tail;
      assert out1[..24][7 := 16 + |ct2|] == out1[..24][7 := 0][7 := 16 + |ct2|];
      assert buf[..24][7 := 16 + |ct2|] == buf[..24][7 := 0][7 := 16 + |ct2|];
    }
  }

  // ----- Rewriting does not disturb the framing -----

  /** One subpacket of a Combined datagram, at position i. */
  lemma OneSubpacket(pkt: seq<byte>, i: nat, n: byte, sub: seq<byte>)
    requires i + 1 + n <= |pkt| && pkt[i] == n > 0 && sub == pkt[i + 1..i + 1 + n]
    ensures SubOpcodes(pkt[i..]) == AppOpcodes(sub) + SubOpcodes(pkt[i + 1 + n..])
  {
    hide AppOpcodes, SubOpcodes;
    SubpacketAt(pkt, i);
  }

  lemma AckHasNone(sub: seq<byte>)
    requires |sub| == 4 && sub[0] == 0 && sub[1] == 0x15
    ensures AppOpcodes(sub) == []
  {
  }

  lemma LoginHasOne(sub: seq<byte>)
    requires |sub| >= 6 && BigEndian16(sub[0], sub[1]) == OP_PACKET && LittleEndian16(sub[4], sub[5]) == 2
    ensures AppOpcodes(sub) == [2]
  {
  }

  lemma LoginOpcodes(pkt: seq<byte>, n: byte)
    requires |pkt| >= 24 && pkt[..5] == LOGIN_PREFIX
    requires pkt[7] == n && 16 <= n && 8 + n <= |pkt|
    requires BigEndian16(pkt[8], pkt[9]) == OP_PACKET && LittleEndian16(pkt[12], pkt[13]) == 2
    ensures AppOpcodes(pkt) == [2] + SubOpcodes(pkt[8 + n..])
  {
    hide AppOpcodes, SubOpcodes;
    assert forall i :: 0 <= i < 5 ==> pkt[i] == pkt[..5][i];
    CombinedOpcodes(pkt);
    var ack, login := pkt[3..7], pkt[8..8 + n];
    OneSubpacket(pkt, 2, 4, ack);
    AckHasNone(ack);
    OneSubpacket(pkt, 7, n, login);
    LoginHasOne(login);
  }

  /** The walk visits the same application opcodes before and after, because the length byte
      is repaired: login packets are never mistaken for replies, nor hidden from them. */
  lemma RewriteKeepsOpcodes(cipher: BlockCipher, buf: seq<byte>, username: seq<byte>, password: seq<byte>)
    requires ParseLoginPacket(cipher, buf).Some?
    requires |username| + |password| + 2 <= 232
    ensures AppOpcodes(Rewritten(cipher, ParseLoginPacket(cipher, buf).value, username, password).value)
         == AppOpcodes(buf)
  {
    hide Encrypted, Rewritten, DecryptCredentials, AppOpcodes, SubOpcodes;
    RewriteFrame(cipher, buf, username, password);
    var out := Rewritten(cipher, ParseLoginPacket(cipher, buf).value, username, password).value;
    var ct := Encrypted(cipher, PackedPlain(username, password));
    assert out[..5] == out[..7][..5] == buf[..7][..5] == buf[..5];
    assert forall i :: 8 <= i < 24 ==> out[i] == out[8..24][i - 8] == buf[8..24][i - 8] == buf[i];
    LoginOpcodes(buf, buf[7]);
    LoginOpcodes(out, 16 + |ct|);
  }
}
