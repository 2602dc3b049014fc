// Credential packing: user and password as C strings, zero-padded to the block size and
// run through a block cipher in CBC mode (section 6.2 of NIST SP 800-38A) with a zero IV.
module DesWire {
  import opened Bytes
  import opened BlockCiphers
  import opened Wrappers

  const ZERO_IV: Block := [0, 0, 0, 0, 0, 0, 0, 0]

  // ----- What the code computes, as functions -----

  function CbcEncrypt(cipher: BlockCipher, iv: Block, plain: seq<byte>): (ct: seq<byte>)
    requires |plain| % BLOCK_SIZE == 0
    ensures |ct| == |plain|
    decreases |plain|
  {
    if plain == [] then []
    else
      var c: Block := cipher.encrypt(XorBytes(plain[..BLOCK_SIZE], iv));
      c + CbcEncrypt(cipher, c, plain[BLOCK_SIZE..])
  }

  function CbcDecrypt(cipher: BlockCipher, iv: Block, ct: seq<byte>): (plain: seq<byte>)
    requires |ct| % BLOCK_SIZE == 0
    ensures |plain| == |ct|
    decreases |ct|
  {
    if ct == [] then []
    else
      var c: Block := ct[..BLOCK_SIZE];
      XorBytes(cipher.decrypt(c), iv) + CbcDecrypt(cipher, c, ct[BLOCK_SIZE..])
  }

  /** The length rounded up to whole blocks. */
  function PaddedLength(n: nat): (m: nat)
    ensures m % BLOCK_SIZE == 0 && n <= m < n + BLOCK_SIZE
  {
    (n + BLOCK_SIZE - 1) / BLOCK_SIZE * BLOCK_SIZE
  }

  function Padded(plain: seq<byte>): (p: seq<byte>)
    ensures |p| == PaddedLength(|plain|)
  {
    plain + Zeros(PaddedLength(|plain|) - |plain|)
  }

  function Encrypted(cipher: BlockCipher, plain: seq<byte>): (ct: seq<byte>)
    ensures |ct| == PaddedLength(|plain|)
  {
    CbcEncrypt(cipher, ZERO_IV, Padded(plain))
  }

  function Decrypted(cipher: BlockCipher, ct: seq<byte>): Option<seq<byte>> {
    if |ct| == 0 || |ct| % BLOCK_SIZE != 0 then None else Some(CbcDecrypt(cipher, ZERO_IV, ct))
  }

  function PackedPlain(username: seq<byte>, password: seq<byte>): seq<byte> {
    username + [0] + password + [0]
  }

  // ----- The buffer-filling code -----

  method ZeroPad(b: seq<byte>) returns (out: seq<byte>)
    ensures out == Padded(b)
  {
    if |b| % BLOCK_SIZE == 0 {
      assert Padded(b) == b;
      return b;
    }
    var n := BLOCK_SIZE - (|b| % BLOCK_SIZE);
    var buf := new byte[|b| + n](_ => 0);
    for i := 0 to |b|
      invariant buf[..i] == b[..i]
      invariant forall k :: |b| <= k < buf.Length ==> buf[k] == 0
    {
      buf[i] := b[i];
    }
    out := buf[..];
    assert |b| + n == PaddedLength(|b|);
    assert out == Padded(b) by {
      assert out[..|b|] == b;
    }
  }

  lemma EncryptStep(cipher: BlockCipher, iv: Block, padded: seq<byte>, i: nat)
    requires |padded| % BLOCK_SIZE == i % BLOCK_SIZE == 0 && i < |padded|
    ensures i + BLOCK_SIZE <= |padded|
    ensures var c: Block := cipher.encrypt(XorBytes(padded[i..i + BLOCK_SIZE], iv));
      CbcEncrypt(cipher, iv, padded[i..]) == c + CbcEncrypt(cipher, c, padded[i + BLOCK_SIZE..])
  {
    hide XorBytes;
    assert padded[i..][..BLOCK_SIZE] == padded[i..i + BLOCK_SIZE];
    assert padded[i..][BLOCK_SIZE..] == padded[i + BLOCK_SIZE..];
  }

  method EncryptDES(cipher: BlockCipher, plain: seq<byte>) returns (ct: seq<byte>)
    ensures ct == Encrypted(cipher, plain)
  {
    hide XorBytes, CbcEncrypt;
    var padded := ZeroPad(plain);
    var out := new byte[|padded|](_ => 0);
    var iv: Block := ZERO_IV;
    var i := 0;
    while i < |padded|
      invariant 0 <= i <= |padded| && i % BLOCK_SIZE == 0
      invariant Encrypted(cipher, plain) == out[..i] + CbcEncrypt(cipher, iv, padded[i..])
    {
      EncryptStep(cipher, iv, padded, i);
      ghost var done := out[..i];
      iv := cipher.encrypt(XorBytes(padded[i..i + BLOCK_SIZE], iv));
      CopyBlock(out, i, iv);
      assert done + (iv + CbcEncrypt(cipher, iv, padded[i + BLOCK_SIZE..]))
          == out[..i + BLOCK_SIZE] + CbcEncrypt(cipher, iv, padded[i + BLOCK_SIZE..]);
      i := i + BLOCK_SIZE;
    }
    assert CbcEncrypt(cipher, iv, padded[i..]) == [];
    ct := out[..];
  }

  lemma DecryptStep(cipher: BlockCipher, iv: Block, ct: seq<byte>, i: nat)
    requires |ct| % BLOCK_SIZE == i % BLOCK_SIZE == 0 && i < |ct|
    ensures i + BLOCK_SIZE <= |ct|
    ensures var c: Block := ct[i..i + BLOCK_SIZE];
      CbcDecrypt(cipher, iv, ct[i..]) == XorBytes(cipher.decrypt(c), iv) + CbcDecrypt(cipher, c, ct[i + BLOCK_SIZE..])
  {
    hide XorBytes;
    assert ct[i..][..BLOCK_SIZE] == ct[i..i + BLOCK_SIZE];
    assert ct[i..][BLOCK_SIZE..] == ct[i + BLOCK_SIZE..];
  }

  method DecryptDES(cipher: BlockCipher, ct: seq<byte>) returns (plain: Option<seq<byte>>)
    ensures plain == Decrypted(cipher, ct)
  {
    hide XorBytes, CbcDecrypt;
    if |ct| == 0 || |ct| % BLOCK_SIZE != 0 {
      return None;
    }
    var out := new byte[|ct|](_ => 0);
    var iv: Block := ZERO_IV;
    var i := 0;
    while i < |ct|
      invariant 0 <= i <= |ct| && i % BLOCK_SIZE == 0
      invariant CbcDecrypt(cipher, ZERO_IV, ct) == out[..i] + CbcDecrypt(cipher, iv, ct[i..])
    {
      DecryptStep(cipher, iv, ct, i);
      ghost var done := out[..i];
      var c: Block := ct[i..i + BLOCK_SIZE];
      var block: Block := XorBytes(cipher.decrypt(c), iv);
      CopyBlock(out, i, block);
      assert done + (block + CbcDecrypt(cipher, c, ct[i + BLOCK_SIZE..]))
          == out[..i + BLOCK_SIZE] + CbcDecrypt(cipher, c, ct[i + BLOCK_SIZE..]);
      iv := c;
      i := i + BLOCK_SIZE;
    }
    assert ct[i..] == [];
    assert CbcDecrypt(cipher, iv, ct[i..]) == [];
    assert out[..] == out[..i] + [];
    plain := Some(out[..]);
  }

  method CopyBlock(out: array<byte>, at: nat, block: Block)
    requires at + BLOCK_SIZE <= out.Length
    modifies out
    ensures out[..at] == old(out[..at])
    ensures out[..at + BLOCK_SIZE] == old(out[..at]) + block
    ensures out[at + BLOCK_SIZE..] == old(out[at + BLOCK_SIZE..])
  {
    forall k | 0 <= k < BLOCK_SIZE {
      out[at + k] := block[k];
    }
  }

  method PackCredentials(cipher: BlockCipher, username: seq<byte>, password: seq<byte>) returns (ct: seq<byte>)
    ensures ct == Encrypted(cipher, PackedPlain(username, password))
  {
    var plain := username + [0];
    plain := plain + password;
    plain := plain + [0];
    ct := EncryptDES(cipher, plain);
  }

  // ----- Block by block -----

  /** Block j of a text. */
  function BlockAt(s: seq<byte>, j: nat): Block
    requires BLOCK_SIZE * (j + 1) <= |s|
  {
    s[BLOCK_SIZE * j..BLOCK_SIZE * (j + 1)]
  }

  /** Each ciphertext block is the encryption of its plaintext block mixed with the ciphertext
      block before it, and the first one with the IV. */
  lemma {:induction false} CbcBlocks(cipher: BlockCipher, iv: Block, plain: seq<byte>, j: nat)
    requires |plain| % BLOCK_SIZE == 0 && BLOCK_SIZE * (j + 1) <= |plain|
    ensures var ct := CbcEncrypt(cipher, iv, plain);
      BlockAt(ct, j) == cipher.encrypt(XorBytes(BlockAt(plain, j), if j == 0 then iv else BlockAt(ct, j - 1)))
    decreases j
  {
    hide XorBytes;
    var c: Block := cipher.encrypt(XorBytes(plain[..BLOCK_SIZE], iv));
    var rest, ct := plain[BLOCK_SIZE..], CbcEncrypt(cipher, iv, plain);
    var after := CbcEncrypt(cipher, c, rest);
    assert ct == c + after;
    assert BlockAt(ct, 0) == c && BlockAt(plain, 0) == plain[..BLOCK_SIZE];
    if j > 0 {
      CbcBlocks(cipher, c, rest, j - 1);
      assert BlockAt(ct, j) == BlockAt(after, j - 1) && BlockAt(plain, j) == BlockAt(rest, j - 1);
      assert j > 1 ==> BlockAt(ct, j - 1) == BlockAt(after, j - 2);
    }
  }

  // ----- Round trips -----

  lemma {:induction false} CbcRoundTrip(cipher: BlockCipher, iv: Block, plain: seq<byte>)
    requires cipher.Invertible() && |plain| % BLOCK_SIZE == 0
    ensures CbcDecrypt(cipher, iv, CbcEncrypt(cipher, iv, plain)) == plain
    decreases |plain|
  {
    if plain != [] {
      var mixed: Block := XorBytes(plain[..BLOCK_SIZE], iv);
      var c: Block := cipher.encrypt(mixed);
      var ct := CbcEncrypt(cipher, iv, plain);
      assert ct[..BLOCK_SIZE] == c && ct[BLOCK_SIZE..] == CbcEncrypt(cipher, c, plain[BLOCK_SIZE..]);
      CbcRoundTrip(cipher, c, plain[BLOCK_SIZE..]);
      assert cipher.decrypt(c) == mixed;
      XorBytesCancels(plain[..BLOCK_SIZE], iv);
      assert plain[..BLOCK_SIZE] + plain[BLOCK_SIZE..] == plain;
    }
  }

  /** Decrypting an encryption gives the text and its zero padding; the empty text is the
      one that does not come back. */
  lemma DecryptEncrypt(cipher: BlockCipher, plain: seq<byte>)
    requires cipher.Invertible()
    ensures Decrypted(cipher, Encrypted(cipher, plain)) == if plain == [] then None else Some(Padded(plain))
  {
    CbcRoundTrip(cipher, ZERO_IV, Padded(plain));
  }
}
