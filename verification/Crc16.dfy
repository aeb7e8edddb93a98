/** The CRC-16 of the KSU link: polynomial 0x8005, most significant bit first, no reflection. */
module Crc16 {
  import opened Bits

  // ----- the checksum as bit-serial division over GF(2)

  type Register = r: seq<bool> | |r| == 16 witness Zeros(16)

  /** Bits 15, 2 and 0 of the polynomial 0x8005; index 0 is bit 15. */
  predicate InPolynomial(i: nat) {
    i == 0 || i == 13 || i == 15
  }

  /** One shift to the left; when the bit that falls out is set, the polynomial is subtracted. */
  function Step(r: Register): (s: Register) {
    seq(16, i requires 0 <= i < 16 => (i < 15 && r[i + 1]) != (r[0] && InPolynomial(i)))
  }

  function FeedBit(r: Register, bit: bool): Register {
    Step(r[0 := r[0] != bit])
  }

  function FeedBits(r: Register, bits: seq<bool>): Register
    decreases |bits|
  {
    if bits == [] then r else FeedBits(FeedBit(r, bits[0]), bits[1..])
  }

  function Crc(r: Register, bytes: seq<byte>): Register {
    FeedBits(r, LineBits(bytes))
  }

  lemma {:induction false} FeedBitsConcat(r: Register, x: seq<bool>, y: seq<bool>)
    ensures FeedBits(r, x + y) == FeedBits(FeedBits(r, x), y)
    decreases |x|
  {
    if x == [] {
      assert x + y == y;
    } else {
      assert (x + y)[1..] == x[1..] + y;
      FeedBitsConcat(FeedBit(r, x[0]), x[1..], y);
    }
  }

  lemma {:induction false} CrcConcat(r: Register, x: seq<byte>, y: seq<byte>)
    ensures Crc(r, x + y) == Crc(Crc(r, x), y)
  {
    LineBitsConcat(x, y);
    FeedBitsConcat(r, LineBits(x), LineBits(y));
  }

  // ----- the byte-at-a-time code computes the bit-serial checksum

  function Steps(r: Register, n: nat): Register
    decreases n, r
  {
    if n == 0 then r else Step(Steps(r, n - 1))
  }

  lemma {:induction false} StepFirst(r: Register, n: nat)
    ensures Steps(r, n + 1) == Steps(Step(r), n)
    decreases n
  {
    if n > 0 {
      StepFirst(r, n - 1);
    }
  }

  /** Adding a short string to the top of the register at once and shifting afterwards feeds its bits one by one. */
  lemma {:induction false} StepsFeed(r: Register, bits: seq<bool>)
    requires |bits| <= 16
    ensures Steps(Add(r, bits + Zeros(16 - |bits|)), |bits|) == FeedBits(r, bits)
    decreases |bits|
  {
    if bits == [] {
      assert Add(r, bits + Zeros(16)) == r;
    } else {
      var s, rest := Add(r, bits + Zeros(16 - |bits|)), bits[1..];
      assert Step(s) == Add(FeedBit(r, bits[0]), rest + Zeros(16 - |rest|));
      StepFirst(s, |rest|);
      StepsFeed(FeedBit(r, bits[0]), rest);
    }
  }

  const POLYNOMIAL: word := 0x8005

  lemma {:induction false} PowersOfTwo()
    ensures Power2(3) == 8 && Power2(8) == 0x100 && Power2(15) == 0x8000 && Power2(16) == 0x1_0000
  {
  }

  lemma {:induction false} DigitsOfFive(n: nat, k: nat)
    requires n == 5 && k == 3
    ensures Digits(n, k) == [true, false, true]
  {
  }

  lemma {:induction false} PolynomialDigits(k: nat)
    requires k == 15
    ensures Digits(POLYNOMIAL, k + 1) == [true] + Zeros(12) + [true, false, true]
  {
    PowersOfTwo();
    TopDigit(1, 5, k);
    DigitsSplit(0, 5, 12, 3);
    DigitsOfZero(12);
    DigitsOfFive(5, 3);
  }

  /** Shift left in an unsigned short: the top bit is lost. */
  function ShiftLeft(w: word): word {
    w * 2 % 0x1_0000
  }

  lemma {:induction false} ShiftLeftDigits(w: word, k: nat)
    requires k == 15
    ensures Digits(w, k + 1)[0] == (w >= 0x8000)
    ensures Digits(ShiftLeft(w), k + 1) == Digits(w, k + 1)[1..] + [false]
  {
    PowersOfTwo();
    var top := if w >= 0x8000 then 1 else 0;
    var lo := w - top * 0x8000;
    assert ShiftLeft(w) == 2 * lo;
    TopDigit(top, lo, k);
    DigitsAppendZero(lo, k);
  }

  /** One turn of the source's inner loop is Step on the digits of the 16-bit word. */
  lemma {:induction false} WordStep(w: word, k: nat)
    requires k == 15
    ensures Xor(ShiftLeft(w), POLYNOMIAL) < 0x1_0000
    ensures w >= 0x8000 ==> Digits(Xor(ShiftLeft(w), POLYNOMIAL), k + 1) == Step(Digits(w, k + 1))
    ensures w < 0x8000 ==> Digits(ShiftLeft(w), k + 1) == Step(Digits(w, k + 1))
  {
    PowersOfTwo();
    ShiftLeftDigits(w, k);
    PolynomialDigits(k);
    XorBound(ShiftLeft(w), POLYNOMIAL, k + 1);
    DigitsXor(ShiftLeft(w), POLYNOMIAL, k + 1);
  }

  /** Adding a byte to the upper half of the word adds its bits to the first half of the register. */
  lemma {:induction false} AddByte(w: word, b: byte)
    ensures Xor(w, b * 0x100) < 0x1_0000
    ensures WordBits(Xor(w, b * 0x100)) == Add(WordBits(w), ByteBits(b) + Zeros(8))
  {
    PowersOfTwo();
    XorBound(w, b * 0x100, 16);
    DigitsXor(w, b * 0x100, 16);
    DigitsSplit(b, 0, 8, 8);
    DigitsOfZero(8);
  }

  lemma {:induction false} FeedByteInSteps(w: word, b: byte, r: Register)
    requires r == WordBits(w)
    ensures Xor(w, b * 0x100) < 0x1_0000
    ensures Steps(WordBits(Xor(w, b * 0x100)), 8) == FeedBits(r, ByteBits(b))
  {
    AddByte(w, b);
    StepsFeed(r, ByteBits(b));
  }

  /** The checksum of a byte string from register 0, as a 16-bit word. */
  function Checksum(bytes: seq<byte>): (w: word)
    ensures WordBits(w) == Crc(Zeros(16), bytes)
  {
    PowersOfTwo();
    DigitsOfValue(Crc(Zeros(16), bytes));
    Value(Crc(Zeros(16), bytes))
  }

  lemma {:induction false} ChecksumUnique(bytes: seq<byte>, w: word)
    requires WordBits(w) == Crc(Zeros(16), bytes)
    ensures w == Checksum(bytes)
  {
    PowersOfTwo();
    DigitsInjective(w, Checksum(bytes), 16);
  }

  /** Utils.cpp, the byte overload. */
  method Crc16Byte(init: word, byte: byte) returns (crc: word)
    ensures WordBits(crc) == FeedBits(WordBits(init), ByteBits(byte))
  {
    FeedByteInSteps(init, byte, WordBits(init));
    crc := Xor(init, byte * 0x100);
    ghost var start := WordBits(crc);
    for i := 0 to 8
      invariant WordBits(crc) == Steps(start, i)
    {
      WordStep(crc, 15);
      if crc >= 0x8000 {
        crc := Xor(ShiftLeft(crc), POLYNOMIAL);
      } else {
        crc := ShiftLeft(crc);
      }
    }
  }

  /** Utils.cpp, the buffer overload: the first `size` bytes of the buffer. */
  method Crc16Buffer(init: word, buffer: array<byte>, size: nat) returns (crc: word)
    requires size <= buffer.Length
    ensures WordBits(crc) == Crc(WordBits(init), buffer[..size])
  {
    crc := init;
    for i := 0 to size
      invariant WordBits(crc) == Crc(WordBits(init), buffer[..i])
    {
      assert buffer[..i + 1] == buffer[..i] + [buffer[i]];
      CrcConcat(WordBits(init), buffer[..i], [buffer[i]]);
      assert LineBits([buffer[i]]) == ByteBits(buffer[i]);
      crc := Crc16Byte(crc, buffer[i]);
    }
  }
}
