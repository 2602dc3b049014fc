// 64-bit block ciphers as pairs of maps, and the one the wire uses: a Feistel network in
// the shape of DES (FIPS 46-3). The round functions and the outer permutations are
// parameters, so everything proved here and above holds for the real DES under any key.
module BlockCiphers {
  import opened Bytes

  const BLOCK_SIZE := 8

  type Block = b: seq<byte> | |b| == BLOCK_SIZE witness [0, 0, 0, 0, 0, 0, 0, 0]
  type Half = h: seq<byte> | |h| == 4 witness [0, 0, 0, 0]

  datatype BlockCipher = BlockCipher(encrypt: Block -> Block, decrypt: Block -> Block) {
    ghost predicate Invertible() {
      forall b: Block :: decrypt(encrypt(b)) == b
    }
  }

  /** Bytewise exclusive or of two strings of the same length. */
  function XorBytes(a: seq<byte>, b: seq<byte>): (r: seq<byte>)
    requires |a| == |b|
    ensures |r| == |a|
  {
    seq(|a|, i requires 0 <= i < |a| => Xor(a[i], b[i]))
  }

  lemma XorBytesCancels(a: seq<byte>, b: seq<byte>)
    requires |a| == |b|
    ensures XorBytes(XorBytes(a, b), b) == a
  {
    hide Xor;
    forall i | 0 <= i < |a|
      ensures XorBytes(XorBytes(a, b), b)[i] == a[i]
    {
      XorCancels(a[i], b[i]);
    }
  }

  // ----- The Feistel network -----

  type RoundFunction = Half -> Half

  /** The rounds in order: the right half moves left, the left half is mixed with F(right). */
  function Rounds(left: Half, right: Half, fs: seq<RoundFunction>): (r: (Half, Half))
    decreases |fs|
  {
    if fs == [] then (left, right)
    else Rounds(right, XorBytes(left, fs[0](right)), fs[1..])
  }

  function Reversed<T>(s: seq<T>): (r: seq<T>)
    ensures |r| == |s|
  {
    if s == [] then [] else Reversed(s[1..]) + [s[0]]
  }

  /** initial and final are the outer permutations IP and its inverse. */
  datatype Des = Des(initial: Block -> Block, final: Block -> Block, rounds: seq<RoundFunction>) {
    ghost predicate PermutationsMatch() {
      && (forall b: Block :: final(initial(b)) == b)
      && (forall b: Block :: initial(final(b)) == b)
    }

    /** Permute, run the rounds, swap the halves, permute back. */
    function Apply(b: Block, fs: seq<RoundFunction>): Block {
      var p := initial(b);
      var (left, right) := Rounds(p[..4], p[4..], fs);
      final(right + left)
    }

    /** Decryption is the same network with the rounds in reverse. */
    function Cipher(): BlockCipher {
      BlockCipher((b: Block) => Apply(b, rounds), (b: Block) => Apply(b, Reversed(rounds)))
    }
  }

  lemma {:induction false} RoundsSnoc(left: Half, right: Half, fs: seq<RoundFunction>, f: RoundFunction)
    ensures var (l, r) := Rounds(left, right, fs); Rounds(left, right, fs + [f]) == (r, XorBytes(l, f(r)))
    decreases |fs|
  {
    if fs == [] {
      assert (fs + [f])[1..] == [];
    } else {
      assert (fs + [f])[1..] == fs[1..] + [f];
      RoundsSnoc(right, XorBytes(left, fs[0](right)), fs[1..], f);
    }
  }

  /** Running the rounds backwards on swapped halves undoes them, whatever they compute. */
  lemma {:induction false} RoundsReverse(left: Half, right: Half, fs: seq<RoundFunction>)
    ensures var (l, r) := Rounds(left, right, fs); Rounds(r, l, Reversed(fs)) == (right, left)
    decreases |fs|
  {
    if fs != [] {
      var mixed := XorBytes(left, fs[0](right));
      RoundsReverse(right, mixed, fs[1..]);
      var (l, r) := Rounds(left, right, fs);
      RoundsSnoc(r, l, Reversed(fs[1..]), fs[0]);
      XorBytesCancels(left, fs[0](right));
    }
  }

  /** A Feistel cipher is invertible for any rounds and any key schedule. */
  lemma DesInvertible(des: Des)
    requires des.PermutationsMatch()
    ensures des.Cipher().Invertible()
  {
    forall b: Block
      ensures des.Apply(des.Apply(b, des.rounds), Reversed(des.rounds)) == b
    {
      var p := des.initial(b);
      var (left, right) := Rounds(p[..4], p[4..], des.rounds);
      RoundsReverse(p[..4], p[4..], des.rounds);
      var swapped: Block := right + left;
      assert swapped[..4] == right && swapped[4..] == left;
      assert p[..4] + p[4..] == p;
    }
  }
}
