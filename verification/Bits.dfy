/** Bytes, 16-bit words and their binary digits, most significant digit first. */
module Bits {

  type byte = b: int | 0 <= b < 0x100
  type word = w: int | 0 <= w < 0x1_0000

  function Msb(w: word): byte {
    w / 0x100
  }

  function Lsb(w: word): byte {
    w % 0x100
  }

  /** A 16-bit word from its bytes in network order, as swap16 makes it on a little-endian host. */
  function Join(m: byte, l: byte): (w: word)
    ensures Msb(w) == m && Lsb(w) == l
  {
    m * 0x100 + l
  }

  // ----- sequences of binary digits as vectors over GF(2)

  function Zeros(n: nat): (bits: seq<bool>)
    ensures |bits| == n && forall i :: 0 <= i < n ==> !bits[i]
  {
    seq(n, i => false)
  }

  /** Componentwise sum. */
  function Add(x: seq<bool>, y: seq<bool>): (z: seq<bool>)
    requires |x| == |y|
    ensures |z| == |x| && forall i :: 0 <= i < |z| ==> z[i] == (x[i] != y[i])
  {
    seq(|x|, i requires 0 <= i < |x| => x[i] != y[i])
  }

  /** The sum of all the components: true when an odd number of them is set. */
  function Parity(x: seq<bool>): bool {
    if x == [] then false else x[0] != Parity(x[1..])
  }

  lemma {:induction false} ParityConcat(x: seq<bool>, y: seq<bool>)
    ensures Parity(x + y) == (Parity(x) != Parity(y))
  {
    if x == [] {
      assert x + y == y;
    } else {
      assert (x + y)[1..] == x[1..] + y;
      ParityConcat(x[1..], y);
    }
  }

  lemma {:induction false} ParityAdd(x: seq<bool>, y: seq<bool>)
    requires |x| == |y|
    ensures Parity(Add(x, y)) == (Parity(x) != Parity(y))
  {
    if x != [] {
      assert Add(x, y)[1..] == Add(x[1..], y[1..]);
      ParityAdd(x[1..], y[1..]);
    }
  }

  lemma {:induction false} ParityOfZeros(n: nat)
    ensures !Parity(Zeros(n))
  {
    if n > 0 {
      assert Zeros(n)[1..] == Zeros(n - 1);
      ParityOfZeros(n - 1);
    }
  }

  // ----- binary digits of a number

  function Power2(k: nat): (p: int)
    ensures p >= 1
  {
    if k == 0 then 1 else 2 * Power2(k - 1)
  }

  /** The k low binary digits of n. */
  function Digits(n: nat, k: nat): (bits: seq<bool>)
    ensures |bits| == k
    decreases k, n
  {
    if k == 0 then [] else Digits(n / 2, k - 1) + [n % 2 == 1]
  }

  /** Bitwise exclusive or. */
  function Xor(a: nat, b: nat): nat
    decreases a + b
  {
    if a == 0 && b == 0 then 0 else 2 * Xor(a / 2, b / 2) + (a + b) % 2
  }

  lemma {:induction false} XorBound(a: nat, b: nat, k: nat)
    requires a < Power2(k) && b < Power2(k)
    ensures Xor(a, b) < Power2(k)
    decreases k
  {
    if a != 0 || b != 0 {
      XorBound(a / 2, b / 2, k - 1);
    }
  }

  lemma {:induction false} DigitsXor(a: nat, b: nat, k: nat)
    ensures Digits(Xor(a, b), k) == Add(Digits(a, k), Digits(b, k))
    decreases k
  {
    if k > 0 {
      DigitsXor(a / 2, b / 2, k - 1);
      assert Xor(a, b) / 2 == Xor(a / 2, b / 2) && Xor(a, b) % 2 == (a + b) % 2;
    }
  }

  lemma {:induction false} DigitsInjective(a: nat, b: nat, k: nat)
    requires a < Power2(k) && b < Power2(k) && Digits(a, k) == Digits(b, k)
    ensures a == b
    decreases k
  {
    if k > 0 {
      var x, y := Digits(a, k), Digits(b, k);
      assert x[..k - 1] == Digits(a / 2, k - 1) && x[k - 1] == (a % 2 == 1);
      assert y[..k - 1] == Digits(b / 2, k - 1) && y[k - 1] == (b % 2 == 1);
      DigitsInjective(a / 2, b / 2, k - 1);
    }
  }

  /** The number a digit string denotes. */
  function Value(bits: seq<bool>): nat {
    if bits == [] then 0
    else 2 * Value(bits[..|bits| - 1]) + if bits[|bits| - 1] then 1 else 0
  }

  lemma {:induction false} DigitsOfValue(bits: seq<bool>)
    ensures Value(bits) < Power2(|bits|) && Digits(Value(bits), |bits|) == bits
  {
    if bits != [] {
      var init, last := bits[..|bits| - 1], if bits[|bits| - 1] then 1 else 0;
      DigitsOfValue(init);
      var n := 2 * Value(init) + last;
      assert n / 2 == Value(init) && n % 2 == last;
      assert bits == init + [last == 1];
    }
  }

  /** Digits of a number split at position j. */
  lemma {:induction false} DigitsSplit(hi: nat, lo: nat, k: nat, j: nat)
    requires lo < Power2(j)
    ensures Digits(hi * Power2(j) + lo, k + j) == Digits(hi, k) + Digits(lo, j)
    decreases j
  {
    if j > 0 {
      var n, p := hi * Power2(j) + lo, hi * Power2(j - 1);
      assert n == 2 * p + lo;
      assert n / 2 == p + lo / 2 && n % 2 == lo % 2;
      DigitsSplit(hi, lo / 2, k, j - 1);
      assert Digits(n, k + j) == Digits(hi, k) + Digits(lo / 2, j - 1) + [lo % 2 == 1];
    }
  }

  lemma {:induction false} DigitsOfZero(k: nat)
    ensures Digits(0, k) == Zeros(k)
  {
    if k > 0 {
      DigitsOfZero(k - 1);
      assert Zeros(k) == Zeros(k - 1) + [false];
    }
  }

  lemma {:induction false} TopDigit(top: nat, lo: nat, k: nat)
    requires top < 2 && lo < Power2(k)
    ensures Digits(top * Power2(k) + lo, k + 1) == [top == 1] + Digits(lo, k)
  {
    DigitsSplit(top, lo, 1, k);
    assert Digits(top, 1) == [top == 1];
  }

  lemma {:induction false} DigitsAppendZero(n: nat, k: nat)
    ensures Digits(2 * n, k + 1) == Digits(n, k) + [false]
  {
  }

  function ByteBits(b: byte): (bits: seq<bool>)
    ensures |bits| == 8
  {
    Digits(b, 8)
  }

  function WordBits(w: word): (bits: seq<bool>)
    ensures |bits| == 16
  {
    Digits(w, 16)
  }

  /** The bits of a byte string in line order. */
  function LineBits(bytes: seq<byte>): (bits: seq<bool>)
    ensures |bits| == 8 * |bytes|
  {
    if bytes == [] then [] else ByteBits(bytes[0]) + LineBits(bytes[1..])
  }

  lemma {:induction false} LineBitsConcat(x: seq<byte>, y: seq<byte>)
    ensures LineBits(x + y) == LineBits(x) + LineBits(y)
  {
    if x == [] {
      assert x + y == y;
    } else {
      assert (x + y)[1..] == x[1..] + y;
      LineBitsConcat(x[1..], y);
    }
  }
}
