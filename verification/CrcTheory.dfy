/** What the checksum detects: linearity, the zero residue, parity and bursts, at every length. */
module CrcTheory {
  import opened Bits
  import opened Crc16

  // ----- the polynomial

  /** Division by x^16 + x^15 + x^2 + 1, bytes from their highest bit down: a 1 at the end leaves the other terms. */
  lemma {:induction false} PolynomialIs()
    ensures Checksum([1]) == 0x8005
  {
    DigitsOfOne(1, 8);
    FeedBitsConcat(Zeros(16), Zeros(7), [true]);
    ZerosFeedNothing(Zeros(16), 7);
    PolynomialDigits(15);
    LastBitFeeds(Zeros(16));
    assert LineBits([1]) == ByteBits(1);
    ChecksumUnique([1], 0x8005);
  }

  lemma {:induction false} DigitsOfOne(n: nat, k: nat)
    requires n == 1 && k == 8
    ensures Digits(n, k) == Zeros(7) + [true]
  {
    DigitsSplit(0, 1, 7, 1);
    DigitsOfZero(7);
    PowersOfTwo();
  }

  lemma {:induction false} LastBitFeeds(r: Register)
    requires r == Zeros(16)
    ensures FeedBits(r, [true]) == [true] + Zeros(12) + [true, false, true]
  {
    assert FeedBits(r, [true]) == FeedBit(r, true);
  }

  // ----- linearity

  lemma {:induction false} FeedBitLinear(a: Register, b: Register, x: bool, y: bool)
    ensures FeedBit(Add(a, b), x != y) == Add(FeedBit(a, x), FeedBit(b, y))
  {
  }

  /** The checksum of a sum is the sum of the checksums. */
  lemma {:induction false} FeedLinear(a: Register, b: Register, x: seq<bool>, y: seq<bool>)
    requires |x| == |y|
    ensures FeedBits(Add(a, b), Add(x, y)) == Add(FeedBits(a, x), FeedBits(b, y))
    decreases |x|
  {
    if x != [] {
      FeedBitLinear(a, b, x[0], y[0]);
      assert Add(x, y)[1..] == Add(x[1..], y[1..]);
      FeedLinear(FeedBit(a, x[0]), FeedBit(b, y[0]), x[1..], y[1..]);
    }
  }

  /** Two byte strings of one length collide exactly when their difference leaves no remainder. */
  lemma {:induction false} CollisionIsZeroRemainder(r: Register, x: seq<byte>, y: seq<byte>)
    requires |x| == |y|
    ensures Crc(r, x) == Crc(r, y) <==> FeedBits(Zeros(16), Add(LineBits(x), LineBits(y))) == Zeros(16)
  {
    FeedLinear(r, r, LineBits(x), LineBits(y));
    var a, b := Crc(r, x), Crc(r, y);
    assert Add(r, r) == Zeros(16);
    assert a == b ==> Add(a, b) == Zeros(16);
    if Add(a, b) == Zeros(16) {
      forall i | 0 <= i < 16 ensures a[i] == b[i] {
        assert !Add(a, b)[i];
      }
    }
  }

  // ----- the zero remainder

  lemma {:induction false} StepBack(r: Register, bit: bool, rest: seq<bool>)
    requires |rest| <= 15
    ensures FeedBit(r, bit) == rest + Zeros(16 - |rest|) <==> r == [bit] + rest + Zeros(15 - |rest|)
  {
    var s, p, q := FeedBit(r, bit), rest + Zeros(16 - |rest|), [bit] + rest + Zeros(15 - |rest|);
    if s == p {
      assert !s[15];
      forall i | 0 <= i < 16 ensures r[i] == q[i] {
        if i > 0 {
          assert s[i - 1] == p[i - 1];
        }
      }
    }
  }

  /** At most 16 more bits drive the register to zero exactly when they repeat its contents. */
  lemma {:induction false} ZeroRemainder(r: Register, bits: seq<bool>)
    requires |bits| <= 16
    ensures FeedBits(r, bits) == Zeros(16) <==> r == bits + Zeros(16 - |bits|)
    decreases |bits|
  {
    if bits == [] {
      assert bits + Zeros(16) == Zeros(16);
    } else {
      ZeroRemainder(FeedBit(r, bits[0]), bits[1..]);
      StepBack(r, bits[0], bits[1..]);
      assert [bits[0]] + bits[1..] == bits;
    }
  }

  lemma {:induction false} WordBitsOfBytes(m: byte, l: byte)
    ensures WordBits(Join(m, l)) == LineBits([m, l])
  {
    PowersOfTwo();
    DigitsSplit(m, l, 8, 8);
    assert [m, l] == [m] + [l];
    LineBitsConcat([m], [l]);
    assert LineBits([m]) == ByteBits(m) && LineBits([l]) == ByteBits(l);
  }

  /** Appending two bytes leaves no remainder exactly when they are the checksum, most significant byte first. */
  lemma {:induction false} Residue(init: Register, body: seq<byte>, crc: word, m: byte, l: byte)
    requires WordBits(crc) == Crc(init, body)
    ensures Crc(init, body + [m, l]) == Zeros(16) <==> m == Msb(crc) && l == Lsb(crc)
  {
    CrcConcat(init, body, [m, l]);
    ZeroRemainder(Crc(init, body), LineBits([m, l]));
    WordBitsOfBytes(m, l);
    var v := Join(m, l);
    assert LineBits([m, l]) + Zeros(0) == WordBits(v);
    PowersOfTwo();
    if WordBits(v) == WordBits(crc) {
      DigitsInjective(v, crc, 16);
    }
  }

  // ----- parity

  lemma {:induction false} StepParity(r: Register)
    ensures Parity(Step(r)) == Parity(r)
  {
    var shifted := r[1..] + [false];
    var poly := [true] + Zeros(12) + [true, false, true];
    assert r == [r[0]] + r[1..];
    ParityConcat([r[0]], r[1..]);
    ParityConcat(r[1..], [false]);
    if r[0] {
      assert Step(r) == Add(shifted, poly);
      ParityAdd(shifted, poly);
      ParityConcat([true], Zeros(12));
      ParityConcat([true] + Zeros(12), [true, false, true]);
      ParityOfZeros(12);
    } else {
      assert Step(r) == shifted;
    }
  }

  /** The register's parity is that of everything that went into it: 0x8005 with its x^16 term is divisible by x + 1. */
  lemma {:induction false} FeedParity(r: Register, bits: seq<bool>)
    ensures Parity(FeedBits(r, bits)) == (Parity(r) != Parity(bits))
    decreases |bits|
  {
    if bits != [] {
      var s := r[0 := r[0] != bits[0]];
      assert s == [s[0]] + r[1..] && r == [r[0]] + r[1..];
      StepParity(s);
      FeedParity(Step(s), bits[1..]);
    }
  }

  // ----- bursts

  /** A non-zero error whose set bits all lie within 16 consecutive positions. */
  ghost predicate Burst(e: seq<bool>, start: nat) {
    (exists i :: 0 <= i < |e| && e[i]) && forall i :: 0 <= i < |e| && e[i] ==> start <= i < start + 16
  }

  lemma {:induction false} ZeroBitFeedsNothing(r: Register)
    ensures FeedBit(r, false) == Zeros(16) <==> r == Zeros(16)
  {
    var none: seq<bool> := [];
    StepBack(r, false, none);
    assert none + Zeros(16) == Zeros(16);
    assert |[false] + none + Zeros(15)| == 16 && forall i :: 0 <= i < 16 ==> !([false] + none + Zeros(15))[i];
    assert [false] + none + Zeros(15) == Zeros(16);
  }

  lemma {:induction false} ZerosFeedNothing(r: Register, n: nat)
    ensures FeedBits(r, Zeros(n)) == Zeros(16) <==> r == Zeros(16)
    decreases n
  {
    if n > 0 {
      assert Zeros(n)[1..] == Zeros(n - 1);
      ZerosFeedNothing(FeedBit(r, false), n - 1);
      ZeroBitFeedsNothing(r);
    }
  }

  lemma {:induction false} BurstLeavesRemainder(e: seq<bool>, start: nat)
    requires Burst(e, start)
    ensures FeedBits(Zeros(16), e) != Zeros(16)
  {
    var i :| 0 <= i < |e| && e[i];
    var hi := if start + 16 <= |e| then start + 16 else |e|;
    var window, after := e[start..hi], |e| - hi;
    assert e == Zeros(start) + (window + Zeros(after));
    FeedBitsConcat(Zeros(16), Zeros(start), window + Zeros(after));
    ZerosFeedNothing(Zeros(16), start);
    FeedBitsConcat(Zeros(16), window, Zeros(after));
    ZeroRemainder(Zeros(16), window);
    assert (window + Zeros(16 - |window|))[i - start];
    ZerosFeedNothing(FeedBits(Zeros(16), window), after);
  }

  /** An odd number of flipped bits, wherever they are, leaves a remainder. */
  lemma {:induction false} OddErrorLeavesRemainder(e: seq<bool>)
    requires Parity(e)
    ensures FeedBits(Zeros(16), e) != Zeros(16)
  {
    FeedParity(Zeros(16), e);
    ParityOfZeros(16);
  }
}
