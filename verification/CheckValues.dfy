// The two check values the repository tests its checksum with. They settle the polynomial, the
// bit order, the inversions and the place of the key, which the laws of the register leave open.
module CheckValues {
  import opened Bytes
  import opened Crc32

  /** The text 123456789. */
  const DIGITS: seq<byte> := [0x31, 0x32, 0x33, 0x34, 0x35, 0x36, 0x37, 0x38, 0x39]

  /** Each byte takes the register from one state of the list to the next. */
  ghost predicate Passes(message: seq<byte>, states: seq<bv32>) {
    && |states| == |message| + 1
    && forall i :: 0 <= i < |message| ==> ShiftInBits(states[i], Word(message[i]), 8) == states[i + 1]
  }

  lemma {:induction false} RunPasses(message: seq<byte>, states: seq<bv32>, i: nat)
    requires Passes(message, states) && i <= |message|
    ensures Run(states[i], message[i..]) == states[|message|]
    decreases |message| - i
  {
    hide ShiftInBits, Word;
    if i < |message| {
      assert message[i..][1..] == message[i + 1..];
      RunPasses(message, states, i + 1);
    }
  }

  lemma Words()
    ensures Word(0) == 0 && Word(0x12) == 0x12 && Word(0x34) == 0x34 && Word(0x56) == 0x56 && Word(0x78) == 0x78
    ensures Word(0x31) == 0x31 && Word(0x32) == 0x32 && Word(0x33) == 0x33 && Word(0x35) == 0x35
    ensures Word(0x36) == 0x36 && Word(0x37) == 0x37 && Word(0x38) == 0x38 && Word(0x39) == 0x39
  {
  }

  lemma KeyZeroBytes()
    ensures KeyBytes(0x00000000) == [0x00, 0x00, 0x00, 0x00]
  {
  }

  lemma KeyZeroFirst()
    ensures ShiftInBits(0xFFFFFFFF, 0x00, 8) == 0x2DFD1072
    ensures ShiftInBits(0x2DFD1072, 0x00, 8) == 0xBE26ED00
    ensures ShiftInBits(0xBE26ED00, 0x00, 8) == 0x00BE26ED
    ensures ShiftInBits(0x00BE26ED, 0x00, 8) == 0xDEBB20E3
    ensures ShiftInBits(0xDEBB20E3, 0x31, 8) == 0x680308D8
    ensures ShiftInBits(0x680308D8, 0x32, 8) == 0x40B7086E
    ensures ShiftInBits(0x40B7086E, 0x33, 8) == 0x159A9A41
  {
  }

  lemma KeyZeroLast()
    ensures ShiftInBits(0x159A9A41, 0x34, 8) == 0x207A1F29
    ensures ShiftInBits(0x207A1F29, 0x35, 8) == 0x14212650
    ensures ShiftInBits(0x14212650, 0x36, 8) == 0xA4C5E54B
    ensures ShiftInBits(0xA4C5E54B, 0x37, 8) == 0x5917F8F2
    ensures ShiftInBits(0x5917F8F2, 0x38, 8) == 0x7BE83C56
    ensures ShiftInBits(0x7BE83C56, 0x39, 8) == 0xDD7694F5
  {
  }

  lemma KeyZeroRuns()
    ensures Run(0xFFFFFFFF, [0x00, 0x00, 0x00, 0x00] + DIGITS) == 0xDD7694F5
  {
    hide ShiftInBits, Word, Run;
    var message: seq<byte> := [0x00, 0x00, 0x00, 0x00] + DIGITS;
    var states := [
      0xFFFFFFFF, 0x2DFD1072, 0xBE26ED00, 0x00BE26ED, 0xDEBB20E3, 0x680308D8, 0x40B7086E,
      0x159A9A41, 0x207A1F29, 0x14212650, 0xA4C5E54B, 0x5917F8F2, 0x7BE83C56, 0xDD7694F5];
    Words();
    KeyZeroFirst();
    KeyZeroLast();
    assert message[0..] == message;
    RunPasses(message, states, 0);
  }

  lemma KeyGivenBytes()
    ensures KeyBytes(0x12345678) == [0x78, 0x56, 0x34, 0x12]
  {
  }

  lemma KeyGivenFirst()
    ensures ShiftInBits(0xFFFFFFFF, 0x78, 8) == 0x7323E97C
    ensures ShiftInBits(0x7323E97C, 0x56, 8) == 0xDBC8EA3F
    ensures ShiftInBits(0xDBC8EA3F, 0x34, 8) == 0x97091162
    ensures ShiftInBits(0x97091162, 0x12, 8) == 0x5092782D
    ensures ShiftInBits(0x5092782D, 0x31, 8) == 0x1451CE37
    ensures ShiftInBits(0x1451CE37, 0x32, 8) == 0x707EA541
    ensures ShiftInBits(0x707EA541, 0x33, 8) == 0xBE7B6EB5
  {
  }

  lemma KeyGivenLast()
    ensures ShiftInBits(0xBE7B6EB5, 0x34, 8) == 0x9A01C8D8
    ensures ShiftInBits(0x9A01C8D8, 0x35, 8) == 0xDE219F0D
    ensures ShiftInBits(0xDE219F0D, 0x36, 8) == 0xB1D5C8BB
    ensures ShiftInBits(0xB1D5C8BB, 0x37, 8) == 0xE4BF1AC3
    ensures ShiftInBits(0xE4BF1AC3, 0x38, 8) == 0x2A8B948E
    ensures ShiftInBits(0x2A8B948E, 0x39, 8) == 0x552FADBB
  {
  }

  lemma KeyGivenRuns()
    ensures Run(0xFFFFFFFF, [0x78, 0x56, 0x34, 0x12] + DIGITS) == 0x552FADBB
  {
    hide ShiftInBits, Word, Run;
    var message: seq<byte> := [0x78, 0x56, 0x34, 0x12] + DIGITS;
    var states := [
      0xFFFFFFFF, 0x7323E97C, 0xDBC8EA3F, 0x97091162, 0x5092782D, 0x1451CE37, 0x707EA541,
      0xBE7B6EB5, 0x9A01C8D8, 0xDE219F0D, 0xB1D5C8BB, 0xE4BF1AC3, 0x2A8B948E, 0x552FADBB];
    Words();
    KeyGivenFirst();
    KeyGivenLast();
    assert message[0..] == message;
    RunPasses(message, states, 0);
  }

  /** The checksum of 123456789 under key 0 and under key 0x12345678. */
  lemma ChecksumOfDigits()
    ensures Checksum(DIGITS, 0) == 0x22896B0A
    ensures Checksum(DIGITS, 0x12345678) == 0xAAD05244
  {
    hide Run, KeyBytes;
    KeyZeroBytes();
    KeyZeroRuns();
    KeyGivenBytes();
    KeyGivenRuns();
  }
}
