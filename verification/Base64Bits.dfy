/** The bit operations of kbase/base64.cpp on bytes, and the numbers they stand for. */
module Base64Bits {
  import opened ByteOrder

  function Doubled(b: bv8, odd: bool): bv8 {
    (b << 1) | if odd then 1 else 0
  }

  /** The bits of a number: those of its half, and whether it is odd. */
  function BitsOf(n: nat): bv8
    requires n < 256
  {
    if n == 0 then 0 else Doubled(BitsOf(n / 2), n % 2 == 1)
  }

  /** A byte as its bits, bits as a number and as a byte again. */
  function Bits(t: byte): bv8 { BitsOf(t as nat) }

  function Number(b: bv8): nat { b as nat }

  function Octet(b: bv8): byte { b as byte }

  lemma ZeroNumber()
    ensures Number(0) == 0 && BitsOf(0) == 0
  {}

  lemma SevenBits(b: bv8)
    requires Number(b) < 128
    ensures b < 128
  {}

  lemma DoubledNumber(b: bv8, odd: bool)
    requires b < 128
    ensures Number(Doubled(b, odd)) == 2 * Number(b) + if odd then 1 else 0
  {}

  lemma Halves(n: nat)
    ensures 2 * (n / 2) + (if n % 2 == 1 then 1 else 0) == n
  {}

  lemma {:induction false} BitsNumber(n: nat)
    requires n < 256
    ensures Number(BitsOf(n)) == n
  {
    if n == 0 {
      ZeroNumber();
    } else {
      BitsNumber(n / 2);
      BitsStep(n);
      Halves(n);
      hide Number, BitsOf;
      SevenBits(BitsOf(n / 2));
      DoubledNumber(BitsOf(n / 2), n % 2 == 1);
    }
  }

  lemma BitsStep(n: nat)
    requires 0 < n < 256
    ensures BitsOf(n) == Doubled(BitsOf(n / 2), n % 2 == 1)
  {
    hide Doubled;
  }

  lemma BitsOfNumber(t: byte)
    ensures Number(Bits(t)) == t as nat
  {
    hide Number, BitsOf;
    BitsNumber(t as nat);
  }

  lemma OctetOfBits(b: bv8)
    ensures Octet(b) as nat == Number(b)
  {}

  lemma SixBits(b: bv8)
    ensures b < 64 <==> Number(b) < 64
  {}

  // ---- The bit operations ----

  /** The indexes of the second and the third letter. */
  function SecondIndex(t0: bv8, t1: bv8): bv8 {
    ((t0 & 0x03) << 4) | ((t1 >> 4) & 0x0F)
  }

  function ThirdIndex(t1: bv8, t2: bv8): bv8 {
    ((t1 & 0x0F) << 2) | ((t2 >> 6) & 0x03)
  }

  /** The bytes of four codes. */
  function FirstByte(c0: bv8, c1: bv8): bv8 {
    (c0 << 2) | ((c1 >> 4) & 0x03)
  }

  function SecondByte(c1: bv8, c2: bv8): bv8 {
    (c1 << 4) | ((c2 >> 2) & 0x0F)
  }

  function ThirdByte(c2: bv8, c3: bv8): bv8 {
    (c2 << 6) | c3
  }

  lemma LowTwo(x: bv8)
    ensures x & 0x03 < 4 && Number(x & 0x03) == Number(x) % 4
  {}

  lemma LowFour(x: bv8)
    ensures x & 0x0F < 16 && Number(x & 0x0F) == Number(x) % 16
  {}

  lemma HighFour(x: bv8)
    ensures (x >> 4) & 0x0F < 16 && Number((x >> 4) & 0x0F) == Number(x) / 16
  {}

  lemma HighTwo(x: bv8)
    ensures (x >> 6) & 0x03 < 4 && Number((x >> 6) & 0x03) == Number(x) / 64
  {}

  lemma UpperOfSix(x: bv8)
    requires x < 64
    ensures (x >> 4) & 0x03 < 4 && Number((x >> 4) & 0x03) == Number(x) / 16
  {}

  lemma FourOfSix(x: bv8)
    requires x < 64
    ensures (x >> 2) & 0x0F < 16 && Number((x >> 2) & 0x0F) == Number(x) / 4
  {}

  /** Numbers side by side. */
  lemma JoinFour(x: bv8, y: bv8)
    requires x < 16 && y < 16
    ensures Number((x << 4) | y) == Number(x) * 16 + Number(y) && (x < 4 ==> (x << 4) | y < 64)
  {}

  lemma JoinTwo(x: bv8, y: bv8)
    requires x < 64 && y < 4
    ensures Number((x << 2) | y) == Number(x) * 4 + Number(y) && (x < 16 ==> (x << 2) | y < 64)
  {}

  lemma JoinSix(x: bv8, y: bv8)
    requires x < 4 && y < 64
    ensures Number((x << 6) | y) == Number(x) * 64 + Number(y)
  {}

  /** What is shifted out of a byte may as well be masked. */
  lemma ShiftedOut(x: bv8)
    ensures x << 4 == (x & 0x0F) << 4 && x << 6 == (x & 0x03) << 6
  {}

  lemma NothingJoined(x: bv8)
    ensures (x & 0x03) << 4 == SecondIndex(x, 0) && (x & 0x0F) << 2 == ThirdIndex(x, 0)
  {}

  lemma SecondIndexIs(x: bv8, y: bv8)
    ensures SecondIndex(x, y) < 64 && Number(SecondIndex(x, y)) == Number(x) % 4 * 16 + Number(y) / 16
  {
    hide Number;
    LowTwo(x);
    HighFour(y);
    JoinFour(x & 0x03, (y >> 4) & 0x0F);
  }

  lemma ThirdIndexIs(x: bv8, y: bv8)
    ensures ThirdIndex(x, y) < 64 && Number(ThirdIndex(x, y)) == Number(x) % 16 * 4 + Number(y) / 64
  {
    hide Number;
    LowFour(x);
    HighTwo(y);
    JoinTwo(x & 0x0F, (y >> 6) & 0x03);
  }

  lemma FirstByteIs(x: bv8, y: bv8)
    requires x < 64 && y < 64
    ensures Number(FirstByte(x, y)) == Number(x) * 4 + Number(y) / 16
  {
    hide Number;
    UpperOfSix(y);
    JoinTwo(x, (y >> 4) & 0x03);
  }

  lemma SecondByteIs(x: bv8, y: bv8)
    requires x < 64 && y < 64
    ensures Number(SecondByte(x, y)) == Number(x) % 16 * 16 + Number(y) / 4
  {
    hide Number;
    LowFour(x);
    FourOfSix(y);
    ShiftedOut(x);
    JoinFour(x & 0x0F, (y >> 2) & 0x0F);
  }

  lemma ThirdByteIs(x: bv8, y: bv8)
    requires x < 64 && y < 64
    ensures Number(ThirdByte(x, y)) == Number(x) % 4 * 64 + Number(y)
  {
    hide Number;
    LowTwo(x);
    ShiftedOut(x);
    JoinSix(x & 0x03, y);
  }

  /** The tests for bad codes, several at once. */
  predicate Bad2(c0: bv8, c1: bv8) { c0 | c1 >= 0x40 }

  predicate Bad3(c0: bv8, c1: bv8, c2: bv8) { c0 | c1 | c2 >= 0x40 }

  predicate Bad4(c0: bv8, c1: bv8, c2: bv8, c3: bv8) { c0 | c1 | c2 | c3 >= 0x40 }

  lemma NoneBad(c0: bv8, c1: bv8, c2: bv8, c3: bv8)
    ensures Bad4(c0, c1, c2, c3) <==> c0 >= 0x40 || c1 >= 0x40 || c2 >= 0x40 || c3 >= 0x40
    ensures Bad3(c0, c1, c2) <==> c0 >= 0x40 || c1 >= 0x40 || c2 >= 0x40
    ensures Bad2(c0, c1) <==> c0 >= 0x40 || c1 >= 0x40
  {}
}
