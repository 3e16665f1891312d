/** The exclusive or of two bytes, computed from their digits, is the one of their bits. */
module ByteXor {
  import opened Bytes
  import opened NczDecode

  function Value(a: bv8): nat {
    a as nat
  }

  function Half(a: bv8): bv8 {
    a >> 1
  }

  function Either(a: bv8, b: bv8): bv8 {
    a ^ b
  }

  /** Nothing is left after so many halvings. */
  predicate Gone(a: bv8, n: nat) {
    if n == 0 then a == 0 else Gone(Half(a), n - 1)
  }

  lemma LowBit(a: bv8)
    ensures a as nat % 2 == (a & 1) as nat && a as nat / 2 == (a >> 1) as nat && a & 1 < 2
  {
  }

  lemma BitsApart(a: bv8, b: bv8)
    ensures (a ^ b) & 1 == (a & 1) ^ (b & 1) && (a ^ b) >> 1 == (a >> 1) ^ (b >> 1)
  {
  }

  lemma OneBit(a: bv8, b: bv8)
    requires a < 2 && b < 2
    ensures (a ^ b) as nat == (a as nat + b as nat) % 2
  {
  }

  lemma LowAndRest(a: bv8, b: bv8)
    ensures (a ^ b) as nat == (a as nat % 2 + b as nat % 2) % 2 + 2 * ((a >> 1) ^ (b >> 1)) as nat
  {
    LowBit(a);
    LowBit(b);
    LowBit(a ^ b);
    BitsApart(a, b);
    OneBit(a & 1, b & 1);
  }

  lemma Names(a: bv8, b: bv8)
    ensures Value(Either(a, b)) == (a ^ b) as nat && Value(a) == a as nat && Value(b) == b as nat
    ensures Value(Either(Half(a), Half(b))) == ((a >> 1) ^ (b >> 1)) as nat
  {
  }

  lemma EitherSplits(a: bv8, b: bv8)
    ensures Value(Either(a, b)) == (Value(a) % 2 + Value(b) % 2) % 2 + 2 * Value(Either(Half(a), Half(b)))
  {
    hide *;
    Names(a, b);
    LowAndRest(a, b);
  }

  lemma HalfIsHalf(a: bv8)
    ensures Value(a) / 2 == Value(Half(a))
  {
    LowBit(a);
  }

  lemma NothingIsLeft(a: bv8, b: bv8)
    requires Gone(a, 0) && Gone(b, 0)
    ensures Value(Either(a, b)) == 0
  {
  }

  lemma DigitsSplit(x: nat, y: nat, n: nat)
    ensures XorBits(x, y, n) == if n == 0 then 0 else (x % 2 + y % 2) % 2 + 2 * XorBits(x / 2, y / 2, n - 1)
  {
  }

  lemma {:induction false} DigitsAreBits(a: bv8, b: bv8, n: nat)
    requires Gone(a, n) && Gone(b, n)
    ensures XorBits(Value(a), Value(b), n) == Value(Either(a, b))
    decreases n
  {
    hide Value, Half, Either, XorBits;
    DigitsSplit(Value(a), Value(b), n);
    if n == 0 {
      NothingIsLeft(a, b);
    } else {
      DigitsAreBits(Half(a), Half(b), n - 1);
      EitherSplits(a, b);
      HalfIsHalf(a);
      HalfIsHalf(b);
    }
  }

  lemma EightHalvings(a: bv8)
    ensures Gone(a, 8)
  {
    var a1, a2, a3, a4 := a >> 1, a >> 1 >> 1, a >> 1 >> 1 >> 1, a >> 1 >> 1 >> 1 >> 1;
    var a5, a6, a7 := a4 >> 1, a4 >> 1 >> 1, a4 >> 1 >> 1 >> 1;
    assert a7 >> 1 == 0;
    assert Gone(a7, 1);
    assert Gone(a6, 2);
    assert Gone(a5, 3);
    assert Gone(a4, 4);
    assert Gone(a3, 5);
    assert Gone(a2, 6);
    assert Gone(a1, 7);
  }

  /** The exclusive or the decoder applies is the machine's. */
  lemma XorIsBitwise(a: bv8, b: bv8)
    ensures Xor(a as byte, b as byte) == (a ^ b) as byte
  {
    EightHalvings(a);
    EightHalvings(b);
    DigitsAreBits(a, b, 8);
  }
}
