// The keyed CRC of the session protocol: the reflected CRC-32 of section 8 of RFC 1952,
// run over the little-endian key followed by the data. The code looks each byte up in
// a table; here the table-driven loop is tied to a shift register fed one bit at a time,
// and the register's algebra gives what the checksum detects.
module Crc32 {
  import opened Bytes

  const POLYNOMIAL: bv32 := 0xEDB88320
  const ALL_ONES: bv32 := 0xFFFFFFFF

  // ----- Words as polynomials over the two-element field -----

  function Plus(x: bv32, y: bv32): bv32 {
    x ^ y
  }

  /** One place towards the low end. */
  function Halve(x: bv32): bv32 {
    x >> 1
  }

  predicate Odd(x: bv32) {
    x & 1 != 0
  }

  /** Eight places towards the low end. */
  function Drop8(x: bv32): bv32 {
    x >> 8
  }

  /** Eight places towards the high end. */
  function Lift8(x: bv32): bv32 {
    x << 8
  }

  function Low8(x: bv32): bv32 {
    x & 0xFF
  }

  // ----- The reference: a shift register, one message bit at a time -----

  /** The register after one message bit: the bit that falls out, combined with the message
      bit, decides whether the polynomial is added. */
  function ShiftIn(register: bv32, bit: bool): bv32 {
    if Odd(register) != bit then Plus(Halve(register), POLYNOMIAL) else Halve(register)
  }

  /** The register after the n lowest bits of w, lowest first. */
  function ShiftInBits(register: bv32, w: bv32, n: nat): bv32
    decreases n
  {
    if n == 0 then register else ShiftInBits(ShiftIn(register, Odd(w)), Halve(w), n - 1)
  }

  /** The register after all bytes of a message. */
  function Run(register: bv32, message: seq<byte>): bv32
    decreases |message|
  {
    if message == [] then register else Run(ShiftInBits(register, Word(message[0]), 8), message[1..])
  }

  /** The key in little-endian byte order. */
  function KeyBytes(key: bv32): (bytes: seq<byte>)
    ensures |bytes| == 4
  {
    [LowByte(key), LowByte(key >> 8), LowByte(key >> 16), LowByte(key >> 24)]
  }

  /** The checksum of data under a session key, defined on bits. */
  function Checksum(data: seq<byte>, key: bv32): bv32 {
    Plus(Run(ALL_ONES, KeyBytes(key) + data), ALL_ONES)
  }

  // ----- The byte form: eight autonomous steps of the register -----

  /** One step of the register on a zero message bit. */
  function Step(c: bv32): bv32 {
    if Odd(c) then Plus(Halve(c), POLYNOMIAL) else Halve(c)
  }

  function Steps(c: bv32, n: nat): bv32
    decreases n
  {
    if n == 0 then c else Steps(Step(c), n - 1)
  }

  function Halves(w: bv32, n: nat): bv32
    decreases n
  {
    if n == 0 then w else Halves(Halve(w), n - 1)
  }

  // ----- Facts about words, each settled bit by bit -----

  lemma PlusAssociates(x: bv32, y: bv32, z: bv32)
    ensures Plus(Plus(x, y), z) == Plus(x, Plus(y, z))
  {
  }

  lemma PlusCommutes(x: bv32, y: bv32)
    ensures Plus(x, y) == Plus(y, x)
  {
  }

  lemma PlusTwice(x: bv32, y: bv32)
    ensures Plus(Plus(x, y), y) == x
  {
  }

  lemma PlusZero(x: bv32)
    ensures Plus(x, 0) == x
  {
  }

  lemma PlusHalve(x: bv32, y: bv32)
    ensures Halve(Plus(x, y)) == Plus(Halve(x), Halve(y))
  {
  }

  lemma PlusOdd(x: bv32, y: bv32)
    ensures Odd(Plus(x, y)) == (Odd(x) != Odd(y))
  {
  }

  lemma PlusDrop8(x: bv32, y: bv32)
    ensures Drop8(Plus(x, y)) == Plus(Drop8(x), Drop8(y))
  {
  }

  lemma EightHalves(w: bv32)
    ensures Halve(Halve(Halve(Halve(Halve(Halve(Halve(Halve(w)))))))) == Drop8(w)
  {
  }

  lemma ByteWord(b: byte)
    ensures Low8(Word(b)) == Word(b) && Drop8(Word(b)) == 0
  {
    WordIsLow(b);
  }

  lemma SplitLow(c: bv32)
    ensures c == Plus(Low8(c), Lift8(Drop8(c)))
  {
  }

  lemma LiftIsClear(c: bv32)
    ensures Low8(Lift8(c)) == 0
  {
  }

  lemma ClearHalves(c: bv32)
    requires Low8(c) == 0
    ensures !Odd(c) && !Odd(Halve(c)) && !Odd(Halve(Halve(c))) && !Odd(Halve(Halve(Halve(c))))
    ensures var d := Halve(Halve(Halve(Halve(c))));
      !Odd(d) && !Odd(Halve(d)) && !Odd(Halve(Halve(d))) && !Odd(Halve(Halve(Halve(d))))
  {
  }

  lemma DropLift(c: bv32)
    ensures Drop8(Lift8(Drop8(c))) == Drop8(c)
  {
  }

  // ----- The register is linear -----

  lemma PlusShuffle(x: bv32, y: bv32, p: bv32)
    ensures Plus(Plus(x, y), p) == Plus(Plus(x, p), y)
    ensures Plus(Plus(x, y), p) == Plus(x, Plus(y, p))
    ensures Plus(Plus(x, p), Plus(y, p)) == Plus(x, y)
  {
    hide Plus;
    PlusAssociates(x, y, p);
    PlusAssociates(x, p, y);
    PlusCommutes(y, p);
    PlusAssociates(x, p, Plus(y, p));
    PlusCommutes(Plus(y, p), p);
    PlusTwice(y, p);
  }

  lemma StepLinear(x: bv32, y: bv32)
    ensures Step(Plus(x, y)) == Plus(Step(x), Step(y))
  {
    hide Plus, Halve, Odd;
    PlusHalve(x, y);
    PlusOdd(x, y);
    PlusShuffle(Halve(x), Halve(y), POLYNOMIAL);
  }

  lemma ShiftInIsStep(c: bv32, w: bv32)
    ensures Step(Plus(c, w)) == Plus(ShiftIn(c, Odd(w)), Halve(w))
  {
    hide Plus, Halve, Odd;
    PlusHalve(c, w);
    PlusOdd(c, w);
    PlusShuffle(Halve(c), Halve(w), POLYNOMIAL);
  }

  lemma {:induction false} StepsLinear(x: bv32, y: bv32, n: nat)
    ensures Steps(Plus(x, y), n) == Plus(Steps(x, n), Steps(y, n))
    decreases n
  {
    hide Plus, Step;
    if n > 0 {
      StepLinear(x, y);
      StepsLinear(Step(x), Step(y), n - 1);
    }
  }

  lemma {:induction false} StepsAdd(c: bv32, m: nat, n: nat)
    ensures Steps(Steps(c, m), n) == Steps(c, m + n)
    decreases m
  {
    hide Step;
    if m > 0 {
      StepsAdd(Step(c), m - 1, n);
    }
  }

  lemma {:induction false} ShiftInBitsIsSteps(c: bv32, w: bv32, n: nat)
    ensures Steps(Plus(c, w), n) == Plus(ShiftInBits(c, w, n), Halves(w, n))
    decreases n
  {
    hide Plus, Step, Halve, Odd, ShiftIn;
    if n > 0 {
      ShiftInIsStep(c, w);
      ShiftInBitsIsSteps(ShiftIn(c, Odd(w)), Halve(w), n - 1);
    }
  }

  lemma HalvesEight(w: bv32)
    ensures Halves(w, 8) == Drop8(w)
  {
    hide Halve, Drop8;
    var w4 := Halve(Halve(Halve(Halve(w))));
    assert Halves(w, 8) == Halves(Halve(Halve(w)), 6) == Halves(w4, 4);
    assert Halves(w4, 4) == Halves(Halve(Halve(w4)), 2);
    EightHalves(w);
  }

  /** Feeding a byte is eight autonomous steps after mixing it into the register. */
  lemma ByteIsEightSteps(c: bv32, b: byte)
    ensures ShiftInBits(c, Word(b), 8) == Steps(Plus(c, Word(b)), 8)
  {
    hide *;
    ShiftInBitsIsSteps(c, Word(b), 8);
    HalvesEight(Word(b));
    ByteWord(b);
    PlusZero(ShiftInBits(c, Word(b), 8));
  }

  // ----- The table -----

  /** Eight steps over a word whose low byte is clear only shift it down. */
  lemma EightStepsOfClear(c: bv32)
    requires Low8(c) == 0
    ensures Steps(c, 8) == Drop8(c)
  {
    hide Halve, Drop8, Odd, Plus, Low8;
    ClearHalves(c);
    var c4 := Halve(Halve(Halve(Halve(c))));
    assert Steps(c, 8) == Steps(Halve(Halve(c)), 6) == Steps(c4, 4);
    assert Steps(c4, 4) == Steps(Halve(Halve(c4)), 2);
    EightHalves(c);
  }

  /** Eight steps of a register are one table entry and a shift. */
  lemma EightStepsByTable(c: bv32)
    ensures Steps(c, 8) == Plus(Steps(Low8(c), 8), Drop8(c))
  {
    hide *;
    SplitLow(c);
    StepsLinear(Low8(c), Lift8(Drop8(c)), 8);
    LiftIsClear(Drop8(c));
    EightStepsOfClear(Lift8(Drop8(c)));
    DropLift(c);
  }

  ghost predicate IsTable(table: seq<bv32>) {
    |table| == 256 && forall i: byte :: table[i] == Steps(Word(i), 8)
  }

  lemma LowByteWord(w: bv32)
    ensures Word(LowByte(w)) == Low8(w)
  {
    WordOfLowByte(w);
  }

  /** One round of the table-driven loop feeds one byte to the register. */
  lemma TableRound(table: seq<bv32>, crc: bv32, b: byte)
    requires IsTable(table)
    ensures Plus(table[LowByte(Plus(crc, Word(b)))], Drop8(crc)) == ShiftInBits(crc, Word(b), 8)
  {
    hide Plus, Steps, ShiftInBits, Word, Drop8, LowByte, Low8;
    ByteIsEightSteps(crc, b);
    EightStepsByTable(Plus(crc, Word(b)));
    LowByteWord(Plus(crc, Word(b)));
    PlusDrop8(crc, Word(b));
    ByteWord(b);
    PlusZero(Drop8(crc));
  }

  lemma {:induction false} RunAppend(register: bv32, a: seq<byte>, b: seq<byte>)
    ensures Run(register, a + b) == Run(Run(register, a), b)
    decreases |a|
  {
    hide ShiftInBits, Word;
    if a == [] {
      assert a + b == b;
    } else {
      assert (a + b)[1..] == a[1..] + b;
      RunAppend(ShiftInBits(register, Word(a[0]), 8), a[1..], b);
    }
  }

  lemma RunSnoc(register: bv32, a: seq<byte>, b: byte)
    ensures Run(register, a + [b]) == ShiftInBits(Run(register, a), Word(b), 8)
  {
    hide ShiftInBits, Word;
    RunAppend(register, a, [b]);
    assert [b][1..] == [];
  }

  method CrcTable() returns (table: array<bv32>)
    ensures fresh(table) && IsTable(table[..])
  {
    hide Plus, Halve, Odd, Word;
    table := new bv32[256];
    for i := 0 to 256
      invariant forall k: byte :: k < i ==> table[k] == Steps(Word(k), 8)
    {
      var entry: byte := i;
      var crc := Word(entry);
      for j := 0 to 8
        invariant Steps(crc, 8 - j) == Steps(Word(entry), 8)
      {
        if Odd(crc) {
          crc := Plus(Halve(crc), POLYNOMIAL);
        } else {
          crc := Halve(crc);
        }
      }
      table[i] := crc;
    }
  }

  /** The table-driven loop computes the bitwise checksum, for every key and input. */
  method SOECRC32(data: seq<byte>, key: bv32) returns (crc: bv32)
    ensures crc == Checksum(data, key)
  {
    hide Plus, Drop8, Steps, ShiftInBits, Run, Word, LowByte;
    var table := CrcTable();
    crc := ALL_ONES;
    var message := KeyBytes(key) + data;
    assert Run(ALL_ONES, []) == ALL_ONES by { RunEmpty(ALL_ONES); }
    for i := 0 to |message|
      invariant IsTable(table[..])
      invariant crc == Run(ALL_ONES, message[..i])
    {
      var idx := LowByte(Plus(crc, Word(message[i])));
      TableRound(table[..], crc, message[i]);
      assert message[..i + 1] == message[..i] + [message[i]];
      RunSnoc(ALL_ONES, message[..i], message[i]);
      crc := Plus(table[idx], Drop8(crc));
    }
    assert message[..|message|] == message;
    crc := Plus(crc, ALL_ONES);
  }

  lemma RunEmpty(register: bv32)
    ensures Run(register, []) == register
  {
  }

  // ----- The register can be run backwards -----

  function StepBack(c: bv32): bv32 {
    if c & 0x80000000 != 0 then ((c ^ POLYNOMIAL) << 1) | 1 else c << 1
  }

  function StepsBack(c: bv32, n: nat): bv32 {
    if n == 0 then c else StepBack(StepsBack(c, n - 1))
  }

  lemma TopBitAfterShift(c: bv32)
    ensures (c >> 1) & 0x80000000 == 0
  {
  }

  lemma TopBitAfterPolynomial(c: bv32)
    requires c & 0x80000000 == 0
    ensures (c ^ 0xEDB88320) & 0x80000000 != 0
  {
  }

  lemma TopBitCleared(c: bv32)
    requires c & 0x80000000 != 0
    ensures (c ^ 0xEDB88320) & 0x80000000 == 0
  {
  }

  lemma ShiftBackEven(c: bv32)
    requires c & 1 == 0
    ensures (c >> 1) << 1 == c
  {
  }

  lemma ShiftBackOdd(c: bv32)
    requires c & 1 != 0
    ensures ((c >> 1) << 1) | 1 == c
  {
  }

  lemma ShiftForthEven(c: bv32)
    requires c & 0x80000000 == 0
    ensures (c << 1) & 1 == 0 && (c << 1) >> 1 == c
  {
  }

  lemma ShiftForthOdd(c: bv32)
    requires c & 0x80000000 == 0
    ensures ((c << 1) | 1) & 1 != 0 && ((c << 1) | 1) >> 1 == c
  {
  }

  lemma StepBackStep(c: bv32)
    ensures StepBack(Step(c)) == c
  {
    TopBitAfterShift(c);
    if Odd(c) {
      TopBitAfterPolynomial(c >> 1);
      PlusTwice(c >> 1, POLYNOMIAL);
      ShiftBackOdd(c);
    } else {
      ShiftBackEven(c);
    }
  }

  lemma StepStepBack(c: bv32)
    ensures Step(StepBack(c)) == c
  {
    if c & 0x80000000 != 0 {
      TopBitCleared(c);
      ShiftForthOdd(c ^ POLYNOMIAL);
      PlusTwice(c, POLYNOMIAL);
    } else {
      ShiftForthEven(c);
    }
  }

  lemma {:induction false} StepsStepsBack(c: bv32, n: nat)
    ensures Steps(StepsBack(c, n), n) == c
  {
    hide Step, StepBack;
    if n > 0 {
      StepStepBack(StepsBack(c, n - 1));
      StepsStepsBack(c, n - 1);
    }
  }

  lemma {:induction false} StepsInjective(x: bv32, y: bv32, n: nat)
    requires Steps(x, n) == Steps(y, n)
    ensures x == y
    decreases n
  {
    hide Step, StepBack;
    if n > 0 {
      StepsInjective(Step(x), Step(y), n - 1);
      StepBackStep(x);
      StepBackStep(y);
    }
  }

  lemma {:induction false} RunInjective(x: bv32, y: bv32, message: seq<byte>)
    requires Run(x, message) == Run(y, message)
    ensures x == y
    decreases |message|
  {
    hide Steps, ShiftInBits, Word, Plus;
    if message != [] {
      var b := message[0];
      RunInjective(ShiftInBits(x, Word(b), 8), ShiftInBits(y, Word(b), 8), message[1..]);
      ByteIsEightSteps(x, b);
      ByteIsEightSteps(y, b);
      StepsInjective(Plus(x, Word(b)), Plus(y, Word(b)), 8);
      PlusTwice(x, Word(b));
      PlusTwice(y, Word(b));
    }
  }

  // ----- Up to four bytes act on the register as one word -----

  /** At most four bytes, little-endian, as one word. */
  function Packed(w: seq<byte>): bv32 {
    if w == [] then 0 else Plus(Word(w[0]), Lift8(Packed(w[1..])))
  }

  /** The word has nothing above its lowest `bytes` bytes. */
  predicate Fits(w: bv32, bytes: nat) {
    match bytes
    case 0 => w == 0
    case 1 => w & 0xFFFFFF00 == 0
    case 2 => w & 0xFFFF0000 == 0
    case 3 => w & 0xFF000000 == 0
    case _ => true
  }

  lemma LiftFits(w: bv32, b: bv32, bytes: nat)
    requires bytes < 4 && Fits(w, bytes) && Low8(b) == b
    ensures Fits(Plus(b, Lift8(w)), bytes + 1)
  {
  }

  lemma LiftDrops(w: bv32, b: bv32)
    requires w & 0xFF000000 == 0 && Low8(b) == b
    ensures Drop8(Lift8(w)) == w
    ensures Low8(Plus(b, Lift8(w))) == b && Drop8(Plus(b, Lift8(w))) == w
  {
  }

  lemma FitsThree(w: bv32, bytes: nat)
    requires bytes < 4 && Fits(w, bytes)
    ensures w & 0xFF000000 == 0
  {
    if bytes == 1 {
      MaskThree(w);
    } else if bytes == 2 {
      MaskTwo(w);
    }
  }

  lemma MaskThree(w: bv32)
    requires w & 0xFFFFFF00 == 0
    ensures w & 0xFF000000 == 0
  {
  }

  lemma MaskTwo(w: bv32)
    requires w & 0xFFFF0000 == 0
    ensures w & 0xFF000000 == 0
  {
  }

  lemma {:induction false} PackedFits(w: seq<byte>)
    requires |w| <= 4
    ensures Fits(Packed(w), |w|)
  {
    hide Fits, Plus, Lift8, Word, Low8;
    if w == [] {
      EmptyFits();
    } else {
      PackedFits(w[1..]);
      ByteWord(w[0]);
      LiftFits(Packed(w[1..]), Word(w[0]), |w| - 1);
    }
  }

  lemma EmptyFits()
    ensures Fits(0, 0)
  {
  }

  lemma PackedParts(w: seq<byte>)
    requires 0 < |w| <= 4
    ensures Drop8(Lift8(Packed(w[1..]))) == Packed(w[1..])
    ensures Low8(Packed(w)) == Word(w[0]) && Drop8(Packed(w)) == Packed(w[1..])
  {
    hide Fits, Plus, Lift8, Word, Low8, Drop8;
    PackedFits(w[1..]);
    FitsThree(Packed(w[1..]), |w| - 1);
    ByteWord(w[0]);
    LiftDrops(Packed(w[1..]), Word(w[0]));
  }

  lemma {:induction false} PackedInjective(v: seq<byte>, w: seq<byte>)
    requires |v| == |w| <= 4 && Packed(v) == Packed(w)
    ensures v == w
  {
    hide Plus, Lift8, Word, Low8, Drop8;
    if v != [] {
      PackedParts(v);
      PackedParts(w);
      PackedInjective(v[1..], w[1..]);
      WordInjective(v[0], w[0]);
      assert v == [v[0]] + v[1..] && w == [w[0]] + w[1..];
    }
  }

  /** A window of at most four bytes is one word mixed in before the steps. */
  lemma {:induction false} RunPacked(register: bv32, w: seq<byte>)
    requires |w| <= 4
    ensures Run(register, w) == Steps(Plus(register, Packed(w)), 8 * |w|)
    decreases |w|
  {
    hide Steps, Plus, Lift8, Drop8, Word, Low8, ShiftInBits;
    if w == [] {
      PlusZero(register);
      StepsNone(register);
    } else {
      var first, rest := Word(w[0]), Packed(w[1..]);
      PackedParts(w);
      LiftIsClear(rest);
      EightStepsOfClear(Lift8(rest));
      ByteIsEightSteps(register, w[0]);
      RunPacked(Steps(Plus(register, first), 8), w[1..]);
      StepsLinear(Plus(register, first), Lift8(rest), 8);
      PlusAssociates(register, first, Lift8(rest));
      StepsAdd(Plus(register, Packed(w)), 8, 8 * |w[1..]|);
    }
  }

  lemma StepsNone(c: bv32)
    ensures Steps(c, 0) == c
  {
  }

  lemma PlusCancels(x: bv32, y: bv32, z: bv32)
    requires Plus(x, y) == Plus(x, z)
    ensures y == z
  {
    hide Plus;
    PlusCommutes(x, y);
    PlusCommutes(x, z);
    PlusTwice(y, x);
    PlusTwice(z, x);
  }

  lemma WindowSeparates(register: bv32, v: seq<byte>, w: seq<byte>)
    requires |v| == |w| <= 4 && Run(register, v) == Run(register, w)
    ensures v == w
  {
    hide *;
    RunPacked(register, v);
    RunPacked(register, w);
    StepsInjective(Plus(register, Packed(v)), Plus(register, Packed(w)), 8 * |v|);
    PlusCancels(register, Packed(v), Packed(w));
    PackedInjective(v, w);
  }

  // ----- What the checksum detects -----

  lemma ChecksumRuns(a: seq<byte>, b: seq<byte>, j: bv32, k: bv32)
    requires Checksum(a, j) == Checksum(b, k)
    ensures Run(ALL_ONES, KeyBytes(j) + a) == Run(ALL_ONES, KeyBytes(k) + b)
  {
    hide Run, Plus, KeyBytes;
    PlusTwice(Run(ALL_ONES, KeyBytes(j) + a), ALL_ONES);
    PlusTwice(Run(ALL_ONES, KeyBytes(k) + b), ALL_ONES);
  }

  /** Around equal surroundings, equal registers at the end mean equal windows. */
  lemma WindowInContext(register: bv32, head: seq<byte>, v: seq<byte>, w: seq<byte>, tail: seq<byte>)
    requires |v| == |w| <= 4
    requires Run(register, head + v + tail) == Run(register, head + w + tail)
    ensures v == w
  {
    hide *;
    RunAppend(register, head + v, tail);
    RunAppend(register, head + w, tail);
    RunInjective(Run(register, head + v), Run(register, head + w), tail);
    RunAppend(register, head, v);
    RunAppend(register, head, w);
    WindowSeparates(Run(register, head), v, w);
  }

  /** Two inputs of equal length that differ only inside one window of at most four
      consecutive bytes never share a checksum. */
  lemma BurstDetected(a: seq<byte>, b: seq<byte>, key: bv32, start: nat, width: nat)
    requires |a| == |b| && width <= 4 && start + width <= |a|
    requires a[..start] == b[..start] && a[start + width..] == b[start + width..]
    requires a != b
    ensures Checksum(a, key) != Checksum(b, key)
  {
    hide *;
    if Checksum(a, key) == Checksum(b, key) {
      ChecksumRuns(a, b, key, key);
      var head, tail := KeyBytes(key) + a[..start], a[start + width..];
      var v, w := a[start..start + width], b[start..start + width];
      assert a == a[..start] + v + tail && b == a[..start] + w + tail;
      assert KeyBytes(key) + a == head + v + tail;
      assert KeyBytes(key) + b == head + w + tail;
      WindowInContext(ALL_ONES, head, v, w, tail);
      assert false;
    }
  }

  // ----- The key is recoverable: for fixed data, keys and checksums are in bijection -----

  /** The register from which the message leads to `register`. */
  function RunBack(register: bv32, message: seq<byte>): bv32 {
    if message == [] then register
    else Plus(StepsBack(RunBack(register, message[1..]), 8), Word(message[0]))
  }

  lemma {:induction false} RunRunBack(register: bv32, message: seq<byte>)
    ensures Run(RunBack(register, message), message) == register
  {
    hide Steps, StepsBack, ShiftInBits, Word, Plus;
    if message != [] {
      var before := StepsBack(RunBack(register, message[1..]), 8);
      ByteIsEightSteps(Plus(before, Word(message[0])), message[0]);
      PlusTwice(before, Word(message[0]));
      StepsStepsBack(RunBack(register, message[1..]), 8);
      RunRunBack(register, message[1..]);
    }
  }

  lemma AssembleWord(k: bv32)
    ensures Plus(Low8(k), Lift8(Plus(Low8(k >> 8), Lift8(Plus(Low8(k >> 16), Lift8(Low8(k >> 24))))))) == k
  {
  }

  lemma LiftZero(x: bv32)
    ensures Plus(x, Lift8(0)) == x
  {
  }

  lemma KeyPacked(key: bv32)
    ensures Packed(KeyBytes(key)) == key
  {
    hide Plus, Lift8, Word, Low8, LowByte;
    var k := KeyBytes(key);
    LowByteWord(key);
    LowByteWord(key >> 8);
    LowByteWord(key >> 16);
    LowByteWord(key >> 24);
    assert k[1..][0] == k[1] && k[1..][1..] == k[2..];
    assert k[2..][0] == k[2] && k[2..][1..] == k[3..];
    assert k[3..][0] == k[3] && k[3..][1..] == [];
    LiftZero(Word(k[3]));
    assert Packed(k[3..]) == Word(k[3]);
    assert Packed(k[2..]) == Plus(Word(k[2]), Lift8(Packed(k[3..])));
    assert Packed(k[1..]) == Plus(Word(k[1]), Lift8(Packed(k[2..])));
    AssembleWord(key);
  }

  /** The key under which data has the checksum crc. */
  function KeyFor(data: seq<byte>, crc: bv32): bv32 {
    Plus(StepsBack(RunBack(Plus(crc, ALL_ONES), data), 32), ALL_ONES)
  }

  /** For every data, each checksum is reached under exactly one key. */
  lemma KeyAndChecksum(data: seq<byte>, key: bv32, crc: bv32)
    ensures Checksum(data, key) == crc <==> key == KeyFor(data, crc)
  {
    hide Run, RunBack, Steps, StepsBack, Plus, Packed, KeyBytes;
    var k := KeyFor(data, crc);
    var before := StepsBack(RunBack(Plus(crc, ALL_ONES), data), 32);
    RunAppend(ALL_ONES, KeyBytes(k), data);
    RunPacked(ALL_ONES, KeyBytes(k));
    KeyPacked(k);
    PlusCommutes(ALL_ONES, k);
    PlusTwice(before, ALL_ONES);
    StepsStepsBack(RunBack(Plus(crc, ALL_ONES), data), 32);
    RunRunBack(Plus(crc, ALL_ONES), data);
    PlusTwice(crc, ALL_ONES);
    assert Checksum(data, k) == crc;
    if Checksum(data, key) == crc {
      ChecksumRuns(data, data, key, k);
      KeyWindows(data, key, k);
    }
  }

  lemma KeyWindows(data: seq<byte>, j: bv32, k: bv32)
    requires Run(ALL_ONES, KeyBytes(j) + data) == Run(ALL_ONES, KeyBytes(k) + data)
    ensures j == k
  {
    hide *;
    assert [] + KeyBytes(j) + data == KeyBytes(j) + data && [] + KeyBytes(k) + data == KeyBytes(k) + data;
    WindowInContext(ALL_ONES, [], KeyBytes(j), KeyBytes(k), data);
    KeyPacked(j);
    KeyPacked(k);
  }
}
