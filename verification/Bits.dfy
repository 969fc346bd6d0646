/**
 * What the word operations mean, bit by bit and as numbers: independent descriptions of the
 * definitions in Words.
 */
module Bits {
  import opened Words

  // ---- 32-bit words, bit by bit ---------------------------------------------------------------

  /** Bit k of a natural number. */
  function Bit(x: nat, k: nat): (b: nat)
    ensures b < 2
  {
    if k == 0 then x % 2 else Bit(x / 2, k - 1)
  }

  /** Numbers below 2 to the n are the same if their first n bits are. */
  lemma {:induction false} BitsDetermine(x: nat, y: nat, n: nat)
    requires x < Pow2(n) && y < Pow2(n)
    requires forall k: nat | k < n :: Bit(x, k) == Bit(y, k)
    ensures x == y
  {
    if n != 0 {
      assert Bit(x, 0) == Bit(y, 0);
      forall k: nat | k < n - 1 ensures Bit(x / 2, k) == Bit(y / 2, k) {
        assert Bit(x, k + 1) == Bit(y, k + 1);
      }
      BitsDetermine(x / 2, y / 2, n - 1);
    }
  }

  lemma {:induction false} BitOfXor(x: nat, y: nat, k: nat)
    ensures Bit(BitXor(x, y), k) == if Bit(x, k) == Bit(y, k) then 0 else 1
    decreases k
  {
    XorStep(x, y);
    BitAndHigh(if x % 2 == y % 2 then 0 else 1, BitXor(x / 2, y / 2));
    hide BitXor;
    if k != 0 {
      BitOfXor(x / 2, y / 2, k - 1);
    }
  }

  lemma {:induction false} BitOfAnd(x: nat, y: nat, k: nat)
    ensures Bit(BitAnd(x, y), k) == if Bit(x, k) == 1 && Bit(y, k) == 1 then 1 else 0
    decreases k
  {
    if x == 0 {
      BitOfZero(k);
    } else {
      BitAndHigh(if y % 2 == 1 then x % 2 else 0, BitAnd(x / 2, y / 2));
      hide BitAnd;
      if k != 0 {
        BitOfAnd(x / 2, y / 2, k - 1);
      }
    }
  }

  lemma {:induction false} BitOfZero(k: nat)
    ensures Bit(0, k) == 0
  {
    if k != 0 {
      BitOfZero(k - 1);
    }
  }

  lemma {:induction false} BitOfComplement(x: nat, n: nat, k: nat)
    requires x < Pow2(n) && k < n
    ensures Bit(Pow2(n) - 1 - x, k) == 1 - Bit(x, k)
    decreases k
  {
    assert (Pow2(n) - 1 - x) / 2 == Pow2(n - 1) - 1 - x / 2;
    if k != 0 {
      BitOfComplement(x / 2, n - 1, k - 1);
    }
  }

  /** The bits of two parts put side by side. */
  lemma {:induction false} BitOfParts(low: nat, high: nat, n: nat, k: nat)
    requires low < Pow2(n)
    ensures Bit(low + Pow2(n) * high, k) == if k < n then Bit(low, k) else Bit(high, k - n)
    decreases n
  {
    if n != 0 {
      TwiceTimes(Pow2(n - 1), high);
      assert (low + 2 * (Pow2(n - 1) * high)) / 2 == low / 2 + Pow2(n - 1) * high;
      if k != 0 {
        BitOfParts(low / 2, high, n - 1, k - 1);
      }
    }
  }

  /** Exclusive or, complement, and conjunction with a complement, on words. */
  lemma WordBits(x: word, y: word, k: nat)
    requires k < 32
    ensures Bit(Xor(x, y), k) == 1 <==> Bit(x, k) != Bit(y, k)
    ensures Bit(Not(x), k) == 1 <==> Bit(x, k) == 0
    ensures Bit(AndNot(x, y), k) == 1 <==> Bit(x, k) == 1 && Bit(y, k) == 0
  {
    hide Bit, BitXor, BitAnd, Pow2;
    Pow2At8And32();
    BitOfXor(x, y, k);
    BitOfComplement(x, 32, k);
    BitOfComplement(y, 32, k);
    BitOfAnd(x, Not(y), k);
  }

  lemma RotatedBit(low: nat, high: nat, n: nat, p: nat, q: nat, k: nat)
    requires 0 < n < 32 && k < 32 && p == Pow2(32 - n) && q == Pow2(n) && low < p && high < q
    ensures Bit(high + q * low, (k + n) % 32) == Bit(low + p * high, k)
  {
    hide Bit, Pow2;
    BitOfParts(low, high, 32 - n, k);
    BitOfParts(high, low, n, (k + n) % 32);
  }

  /** Rotations to the left move every bit up and the highest ones to the bottom. */
  lemma RotationBits(x: word, k: nat)
    requires k < 32
    ensures Bit(Rotl1(x), (k + 1) % 32) == Bit(x, k)
    ensures Bit(Rotl15(x), (k + 15) % 32) == Bit(x, k)
    ensures Bit(Rotl17(x), (k + 17) % 32) == Bit(x, k)
  {
    Rotation1Bits(x, k);
    Rotation15Bits(x, k);
    Rotation17Bits(x, k);
  }

  lemma Rotation1Bits(x: word, k: nat)
    requires k < 32
    ensures Bit(Rotl1(x), (k + 1) % 32) == Bit(x, k)
  {
    hide Bit, Pow2;
    Pow2At1To31();
    Rotl1Parts(x);
    hide Rotl1;
    RotatedBit(x % 0x8000_0000, x / 0x8000_0000, 1, 0x8000_0000, 2, k);
  }

  lemma Rotl1Parts(x: word)
    ensures x % 0x8000_0000 < 0x8000_0000 && x / 0x8000_0000 < 2 && x == x % 0x8000_0000 + 0x8000_0000 * (x / 0x8000_0000)
    ensures Rotl1(x) == x / 0x8000_0000 + 2 * (x % 0x8000_0000)
  {
  }

  lemma Rotation15Bits(x: word, k: nat)
    requires k < 32
    ensures Bit(Rotl15(x), (k + 15) % 32) == Bit(x, k)
  {
    hide Bit, Pow2;
    Pow2At1To31();
    Rotl15Parts(x);
    hide Rotl15;
    RotatedBit(x % 0x2_0000, x / 0x2_0000, 15, 0x2_0000, 0x8000, k);
  }

  lemma Rotl15Parts(x: word)
    ensures x % 0x2_0000 < 0x2_0000 && x / 0x2_0000 < 0x8000 && x == x % 0x2_0000 + 0x2_0000 * (x / 0x2_0000)
    ensures Rotl15(x) == x / 0x2_0000 + 0x8000 * (x % 0x2_0000)
  {
  }

  lemma Rotation17Bits(x: word, k: nat)
    requires k < 32
    ensures Bit(Rotl17(x), (k + 17) % 32) == Bit(x, k)
  {
    hide Bit, Pow2;
    Pow2At1To31();
    Rotl17Parts(x);
    hide Rotl17;
    RotatedBit(x % 0x8000, x / 0x8000, 17, 0x8000, 0x2_0000, k);
  }

  lemma Rotl17Parts(x: word)
    ensures x % 0x8000 < 0x8000 && x / 0x8000 < 0x2_0000 && x == x % 0x8000 + 0x8000 * (x / 0x8000)
    ensures Rotl17(x) == x / 0x8000 + 0x2_0000 * (x % 0x8000)
  {
  }

  lemma Pow2At1To31()
    ensures Pow2(1) == 2 && Pow2(15) == 0x8000 && Pow2(17) == 0x2_0000 && Pow2(31) == 0x8000_0000
  {
    Pow2At8And32();
    assert Pow2(2) == 4 && Pow2(4) == 0x10 && Pow2(6) == 0x40 && Pow2(8) == 0x100;
    assert Pow2(10) == 0x400 && Pow2(12) == 0x1000 && Pow2(14) == 0x4000 && Pow2(16) == 0x1_0000;
  }

  /** Sums and differences are those of the integers, modulo 2 to the 32. */
  lemma SumsWrap(x: word, y: word)
    ensures Plus(x, y) == (x + y) % 0x1_0000_0000 && Minus(x, y) == (x - y) % 0x1_0000_0000
  {
  }

  // ---- 64-bit machine words as numbers ----------------------------------------------------------

  predicate Odd(b: bv64) {
    b & 1 == 1
  }

  function Half(b: bv64): bv64 {
    b >> 1
  }

  /** The number that the lowest k bits of a machine word stand for. */
  function Low(b: bv64, k: nat): nat {
    if k == 0 then 0 else (if Odd(b) then 1 else 0) + 2 * Low(Half(b), k - 1)
  }

  /** The number that a machine word stands for. */
  function Number(b: bv64): nat {
    Low(b, 64)
  }

  lemma {:induction false} LowBelow(b: bv64, k: nat)
    ensures Low(b, k) < Pow2(k)
    decreases k
  {
    hide Odd, Half;
    if k != 0 {
      LowBelow(Half(b), k - 1);
    }
  }

  /** All of the lowest k bits of m are set. */
  predicate Covers(m: bv64, k: nat) {
    k == 0 || (Odd(m) && Covers(Half(m), k - 1))
  }

  lemma {:induction false} LowOfNone(b: bv64, m: bv64, k: nat)
    requires Covers(m, k) && b & m == 0
    ensures Low(b, k) == 0
    decreases k
  {
    HalvesApart(b, m);
    hide Odd, Half;
    if k != 0 {
      LowOfNone(Half(b), Half(m), k - 1);
    }
  }

  lemma HalvesApart(b: bv64, m: bv64)
    requires b & m == 0
    ensures Half(b) & Half(m) == 0 && (Odd(m) ==> !Odd(b))
  {
  }

  lemma {:induction false} CoversFewer(m: bv64, k: nat, j: nat)
    requires Covers(m, k) && j <= k
    ensures Covers(m, j)
    decreases k
  {
    hide Odd, Half;
    if j != 0 {
      CoversFewer(Half(m), k - 1, j - 1);
    }
  }

  /** Eight halvings. */
  function Byteward(b: bv64): bv64 {
    Half(Half(Half(Half(Half(Half(Half(Half(b))))))))
  }

  lemma CoversEight(m: bv64, k: nat)
    requires m & 0xFF == 0xFF && Covers(m >> 8, k)
    ensures Covers(m, k + 8)
  {
    EightHalves(m);
    var h1 := Half(m);
    var h2 := Half(h1);
    var h3 := Half(h2);
    var h4 := Half(h3);
    var h5 := Half(h4);
    var h6 := Half(h5);
    var h7 := Half(h6);
    hide Odd, Half;
    assert Covers(h7, k + 1);
    assert Covers(h6, k + 2);
    assert Covers(h5, k + 3);
    assert Covers(h4, k + 4);
    assert Covers(h3, k + 5);
    assert Covers(h2, k + 6);
    assert Covers(h1, k + 7);
  }

  /** The eight halvings of a machine word, and whether they are odd. */
  lemma EightHalves(b: bv64)
    ensures Byteward(b) == b >> 8
    ensures b & 0xFF == 0xFF ==>
      && Odd(b) && Odd(Half(b)) && Odd(Half(Half(b))) && Odd(Half(Half(Half(b))))
      && Odd(Half(Half(Half(Half(b))))) && Odd(Half(Half(Half(Half(Half(b))))))
      && Odd(Half(Half(Half(Half(Half(Half(b))))))) && Odd(Half(Half(Half(Half(Half(Half(Half(b))))))))
  {
  }

  lemma AllButTop()
    ensures Covers(0x7FFF_FFFF_FFFF_FFFF, 63)
  {
    SevenBits();
    hide Covers;
    CoversEight(0x7FFF, 7);
    CoversEight(0x7F_FFFF, 15);
    CoversEight(0x7FFF_FFFF, 23);
    CoversEight(0x7F_FFFF_FFFF, 31);
    CoversEight(0x7FFF_FFFF_FFFF, 39);
    CoversEight(0x7F_FFFF_FFFF_FFFF, 47);
    CoversEight(0x7FFF_FFFF_FFFF_FFFF, 55);
  }

  lemma SevenBits()
    ensures Covers(0x7F, 7)
  {
    assert Covers(1, 1) && Covers(3, 2) && Covers(7, 3) && Covers(0xF, 4) && Covers(0x1F, 5) && Covers(0x3F, 6);
  }

  /** Adding one machine word is adding one, modulo 2 to the k in the lowest k bits. */
  lemma {:induction false} LowOfNext(b: bv64, k: nat)
    requires k <= 64
    ensures Low(Next(b), k) == if Low(b, k) + 1 == Pow2(k) then 0 else Low(b, k) + 1
    decreases k
  {
    hide Odd, Half, Next;
    if k != 0 {
      LowOfHalves(b, k - 1);
      LowOfNext(Half(b), k - 1);
    }
  }

  /** Halving b + 1, with the carry out of the highest bit of all. */
  lemma LowOfHalves(b: bv64, k: nat)
    requires k < 64
    ensures Odd(Next(b)) <==> !Odd(b)
    ensures Low(Half(Next(b)), k) == if Odd(b) then Low(Next(Half(b)), k) else Low(Half(b), k)
  {
    NextHalf(b);
    hide Low, Odd, Half, Next;
    if b == 0xFFFF_FFFF_FFFF_FFFF {
      AllButTop();
      CoversFewer(0x7FFF_FFFF_FFFF_FFFF, 63, k);
      LowOfNone(Half(Next(b)), 0x7FFF_FFFF_FFFF_FFFF, k);
      LowOfNone(Next(Half(b)), 0x7FFF_FFFF_FFFF_FFFF, k);
    }
  }

  lemma NextHalf(b: bv64)
    ensures Odd(Next(b)) <==> !Odd(b)
    ensures !Odd(b) ==> Half(Next(b)) == Half(b)
    ensures Odd(b) && b != 0xFFFF_FFFF_FFFF_FFFF ==> Half(Next(b)) == Next(Half(b))
    ensures b == 0xFFFF_FFFF_FFFF_FFFF ==>
      Odd(b) && Half(Next(b)) & 0x7FFF_FFFF_FFFF_FFFF == 0 && Next(Half(b)) & 0x7FFF_FFFF_FFFF_FFFF == 0
  {
  }

  lemma NumberBelow(b: bv64)
    ensures Number(b) < 0x1_0000_0000_0000_0000
  {
    Pow2At64();
    LowBelow(b, 64);
  }

  lemma NumberOfNext(b: bv64)
    ensures Number(Next(b)) == (Number(b) + 1) % 0x1_0000_0000_0000_0000
  {
    hide Low, Next, Pow2;
    Pow2At64();
    NumberBelow(b);
    LowOfNext(b, 64);
  }

  /** The k-th machine word from b on stands for the sum, modulo 2 to the 64. */
  lemma {:induction false} NumberOfNonceAt(b: bv64, k: nat)
    ensures Number(NonceAt(b, k)) == (Number(b) + k) % 0x1_0000_0000_0000_0000
  {
    hide Number, Next;
    NumberBelow(b);
    if k != 0 {
      NumberOfNonceAt(b, k - 1);
      NumberOfNext(NonceAt(b, k - 1));
      OneMoreModulo(Number(b) + k - 1);
    }
  }

  lemma OneMoreModulo(x: nat)
    ensures (x % 0x1_0000_0000_0000_0000 + 1) % 0x1_0000_0000_0000_0000 == (x + 1) % 0x1_0000_0000_0000_0000
  {
  }

  lemma Pow2At64()
    ensures Pow2(64) == 0x1_0000_0000_0000_0000
  {
    Pow2At8And32();
    Pow2Sum(32, 32);
  }

  lemma {:induction false} Pow2Sum(m: nat, n: nat)
    ensures Pow2(m + n) == Pow2(m) * Pow2(n)
  {
    if m != 0 {
      Pow2Sum(m - 1, n);
      TwiceTimes(Pow2(m - 1), Pow2(n));
    }
  }

  lemma {:induction false} LowOfZero(k: nat)
    ensures Low(0, k) == 0
  {
    if k != 0 {
      LowOfZero(k - 1);
    }
  }

  /** The machine word that holds n stands for n modulo 2 to the 64. */
  lemma NumberOfU64(n: nat)
    ensures Number(U64(n)) == n % 0x1_0000_0000_0000_0000
  {
    LowOfZero(64);
    NumberOfNonceAt(0, n);
  }

  // ---- the bytes of a machine word ------------------------------------------------------------

  /** One more digit to the base 256 at the end. */
  function Digit(high: nat, low: byte): nat {
    high * 0x100 + low
  }

  /** The number whose digits to the base 256, most significant first, are the eight bytes. */
  function BigEndian(b: seq<byte>): nat
    requires |b| == 8
  {
    var high := Digit(Digit(Digit(b[0], b[1]), b[2]), b[3]);
    Digit(Digit(Digit(Digit(high, b[4]), b[5]), b[6]), b[7])
  }

  /** A byte of eight bits, given from the lowest. */
  function ByteOfBits(b0: bool, b1: bool, b2: bool, b3: bool, b4: bool, b5: bool, b6: bool, b7: bool): nat {
    (if b0 then 1 else 0) + (if b1 then 2 else 0) + (if b2 then 4 else 0) + (if b3 then 8 else 0)
    + (if b4 then 16 else 0) + (if b5 then 32 else 0) + (if b6 then 64 else 0) + (if b7 then 128 else 0)
  }

  lemma LowByteByBits(b: bv64)
    ensures LowByte(b) == ByteOfBits(Odd(b), Odd(b >> 1), Odd(b >> 2), Odd(b >> 3),
                                     Odd(b >> 4), Odd(b >> 5), Odd(b >> 6), Odd(b >> 7))
  {
  }

  lemma HalvesAreShifts(b: bv64)
    ensures Half(b) == b >> 1 && Half(b >> 1) == b >> 2 && Half(b >> 2) == b >> 3 && Half(b >> 3) == b >> 4
    ensures Half(b >> 4) == b >> 5 && Half(b >> 5) == b >> 6 && Half(b >> 6) == b >> 7 && Half(b >> 7) == b >> 8
  {
  }

  /** The lowest byte first, then the bytes above it. */
  lemma LowByteFirst(b: bv64, k: nat)
    ensures Low(b, k + 8) == LowByte(b) + 0x100 * Low(b >> 8, k)
  {
    LowByteByBits(b);
    HalvesAreShifts(b);
    hide Odd, Half, LowByte;
    assert Low(b >> 7, k + 1) == (if Odd(b >> 7) then 1 else 0) + 2 * Low(b >> 8, k);
    assert Low(b >> 6, k + 2) == (if Odd(b >> 6) then 1 else 0) + 2 * Low(b >> 7, k + 1);
    assert Low(b >> 5, k + 3) == (if Odd(b >> 5) then 1 else 0) + 2 * Low(b >> 6, k + 2);
    assert Low(b >> 4, k + 4) == (if Odd(b >> 4) then 1 else 0) + 2 * Low(b >> 5, k + 3);
    assert Low(b >> 3, k + 5) == (if Odd(b >> 3) then 1 else 0) + 2 * Low(b >> 4, k + 4);
    assert Low(b >> 2, k + 6) == (if Odd(b >> 2) then 1 else 0) + 2 * Low(b >> 3, k + 5);
    assert Low(b >> 1, k + 7) == (if Odd(b >> 1) then 1 else 0) + 2 * Low(b >> 2, k + 6);
  }

  /** What is left of a machine word without its lowest byte. */
  function Above(b: bv64): bv64 {
    b >> 8
  }

  lemma BytesByAbove(n: bv64)
    ensures var n4 := Above(Above(Above(Above(n))));
            Bytes64(n) == [LowByte(n), LowByte(Above(n)), LowByte(Above(Above(n))), LowByte(Above(Above(Above(n)))),
                           LowByte(n4), LowByte(Above(n4)), LowByte(Above(Above(n4))), LowByte(Above(Above(Above(n4))))]
  {
    AboveShifts(n);
    hide LowByte, Above;
  }

  lemma AboveShifts(n: bv64)
    ensures Above(n) == n >> 8 && Above(Above(n)) == n >> 16 && Above(Above(Above(n))) == n >> 24
    ensures var n4 := Above(Above(Above(Above(n))));
            n4 == n >> 32 && Above(n4) == n >> 40 && Above(Above(n4)) == n >> 48 && Above(Above(Above(n4))) == n >> 56
  {
  }

  lemma NumberByDigits(b: bv64, k: nat)
    ensures Low(b, k + 8) == Digit(Low(Above(b), k), LowByte(b)) && Low(b, 0) == 0
  {
    LowByteFirst(b, k);
  }

  /** The bytes in memory of a machine word are the digits of its number, least significant first. */
  lemma BytesAreDigits(n: bv64)
    ensures var b := Bytes64(n);
            Number(n) == BigEndian([b[7], b[6], b[5], b[4], b[3], b[2], b[1], b[0]])
  {
    BytesByAbove(n);
    hide Low, LowByte, Above, Bytes64;
    NumberByDigits(n, 56);
    NumberByDigits(Above(n), 48);
    NumberByDigits(Above(Above(n)), 40);
    NumberByDigits(Above(Above(Above(n))), 32);
    NumberByDigits(Above(Above(Above(Above(n)))), 24);
    NumberByDigits(Above(Above(Above(Above(Above(n))))), 16);
    NumberByDigits(Above(Above(Above(Above(Above(Above(n)))))), 8);
    NumberByDigits(Above(Above(Above(Above(Above(Above(Above(n))))))), 0);
    NumberByDigits(Above(Above(Above(Above(Above(Above(Above(Above(n)))))))), 0);
  }

  /** The host's byte reversal, followed by storing the word, puts the most significant byte first. */
  lemma HtonBytes(n: bv64)
    ensures BigEndian(Bytes64(HtonUll(n))) == Number(n)
  {
    BytesAreDigits(n);
    HtonReverses(n);
  }

  lemma HtonReverses(n: bv64)
    ensures var b := Bytes64(n);
            Bytes64(HtonUll(n)) == [b[7], b[6], b[5], b[4], b[3], b[2], b[1], b[0]]
  {
    HtonByte(n);
    hide LowByte, HtonUll;
  }

  lemma HtonByte(n: bv64)
    ensures LowByte(HtonUll(n)) == LowByte(n >> 56) && LowByte(HtonUll(n) >> 8) == LowByte(n >> 48)
    ensures LowByte(HtonUll(n) >> 16) == LowByte(n >> 40) && LowByte(HtonUll(n) >> 24) == LowByte(n >> 32)
    ensures LowByte(HtonUll(n) >> 32) == LowByte(n >> 24) && LowByte(HtonUll(n) >> 40) == LowByte(n >> 16)
    ensures LowByte(HtonUll(n) >> 48) == LowByte(n >> 8) && LowByte(HtonUll(n) >> 56) == LowByte(n)
  {
    HtonMasks(n);
    hide HtonUll;
  }

  lemma HtonMasks(n: bv64)
    ensures HtonUll(n) & 0xFF == (n >> 56) & 0xFF && (HtonUll(n) >> 8) & 0xFF == (n >> 48) & 0xFF
    ensures (HtonUll(n) >> 16) & 0xFF == (n >> 40) & 0xFF && (HtonUll(n) >> 24) & 0xFF == (n >> 32) & 0xFF
    ensures (HtonUll(n) >> 32) & 0xFF == (n >> 24) & 0xFF && (HtonUll(n) >> 40) & 0xFF == (n >> 16) & 0xFF
    ensures (HtonUll(n) >> 48) & 0xFF == (n >> 8) & 0xFF && (HtonUll(n) >> 56) & 0xFF == n & 0xFF
  {
  }

  // ---- numbers, bytes and machine words determine each other ---------------------------------------

  lemma DigitDetermines(high: nat, low: byte, high2: nat, low2: byte)
    requires Digit(high, low) == Digit(high2, low2)
    ensures high == high2 && low == low2
  {
  }

  /** Different bytes make different numbers. */
  lemma BigEndianDetermines(x: seq<byte>, y: seq<byte>)
    requires |x| == |y| == 8 && BigEndian(x) == BigEndian(y)
    ensures x == y
  {
    hide Digit;
    var x1, y1 := Digit(x[0], x[1]), Digit(y[0], y[1]);
    var x2, y2 := Digit(x1, x[2]), Digit(y1, y[2]);
    var x3, y3 := Digit(x2, x[3]), Digit(y2, y[3]);
    var x4, y4 := Digit(x3, x[4]), Digit(y3, y[4]);
    var x5, y5 := Digit(x4, x[5]), Digit(y4, y[5]);
    var x6, y6 := Digit(x5, x[6]), Digit(y5, y[6]);
    DigitDetermines(x6, x[7], y6, y[7]);
    DigitDetermines(x5, x[6], y5, y[6]);
    DigitDetermines(x4, x[5], y4, y[5]);
    DigitDetermines(x3, x[4], y3, y[4]);
    DigitDetermines(x2, x[3], y2, y[3]);
    DigitDetermines(x1, x[2], y1, y[2]);
    DigitDetermines(x[0], x[1], y[0], y[1]);
  }

  predicate SameLowByte(b: bv64, c: bv64) {
    b & 0xFF == c & 0xFF
  }

  lemma LowByteDetermines(b: bv64, c: bv64)
    requires LowByte(b) == LowByte(c)
    ensures SameLowByte(b, c)
  {
    LowByteByBits(b);
    LowByteByBits(c);
    SameBits(b, c);
    hide LowByte, Odd, SameLowByte;
  }

  lemma SameBits(b: bv64, c: bv64)
    ensures (Odd(b) == Odd(c) && Odd(b >> 1) == Odd(c >> 1) && Odd(b >> 2) == Odd(c >> 2)
             && Odd(b >> 3) == Odd(c >> 3) && Odd(b >> 4) == Odd(c >> 4) && Odd(b >> 5) == Odd(c >> 5)
             && Odd(b >> 6) == Odd(c >> 6) && Odd(b >> 7) == Odd(c >> 7)) ==> SameLowByte(b, c)
  {
  }

  lemma SameBytes(b: bv64, c: bv64)
    ensures (SameLowByte(b, c) && SameLowByte(b >> 8, c >> 8) && SameLowByte(b >> 16, c >> 16)
             && SameLowByte(b >> 24, c >> 24) && SameLowByte(b >> 32, c >> 32) && SameLowByte(b >> 40, c >> 40)
             && SameLowByte(b >> 48, c >> 48) && SameLowByte(b >> 56, c >> 56)) ==> b == c
  {
  }

  lemma Bytes64Determine(b: bv64, c: bv64)
    requires Bytes64(b) == Bytes64(c)
    ensures b == c
  {
    SameBytes(b, c);
    hide LowByte, SameLowByte;
    var x, y := Bytes64(b), Bytes64(c);
    assert x[0] == y[0] && x[1] == y[1] && x[2] == y[2] && x[3] == y[3];
    assert x[4] == y[4] && x[5] == y[5] && x[6] == y[6] && x[7] == y[7];
    LowByteDetermines(b, c);
    LowByteDetermines(b >> 8, c >> 8);
    LowByteDetermines(b >> 16, c >> 16);
    LowByteDetermines(b >> 24, c >> 24);
    LowByteDetermines(b >> 32, c >> 32);
    LowByteDetermines(b >> 40, c >> 40);
    LowByteDetermines(b >> 48, c >> 48);
    LowByteDetermines(b >> 56, c >> 56);
  }

  /** Machine words that stand for the same number are the same. */
  lemma NumberDetermines(b: bv64, c: bv64)
    requires Number(b) == Number(c)
    ensures b == c
  {
    BytesAreDigits(b);
    BytesAreDigits(c);
    hide Bytes64, BigEndian, Number;
    var x, y := Bytes64(b), Bytes64(c);
    var rx, ry := [x[7], x[6], x[5], x[4], x[3], x[2], x[1], x[0]], [y[7], y[6], y[5], y[4], y[3], y[2], y[1], y[0]];
    BigEndianDetermines(rx, ry);
    assert rx[0] == ry[0] && rx[1] == ry[1] && rx[2] == ry[2] && rx[3] == ry[3] && rx[4] == ry[4] && rx[5] == ry[5]
        && rx[6] == ry[6] && rx[7] == ry[7];
    assert x == y;
    Bytes64Determine(b, c);
  }

  /** Two numbers share a machine word exactly if they agree modulo 2 to the 64. */
  lemma U64SameIff(m: nat, n: nat)
    ensures U64(m) == U64(n) <==> m % 0x1_0000_0000_0000_0000 == n % 0x1_0000_0000_0000_0000
  {
    hide U64, Number;
    NumberOfU64(m);
    NumberOfU64(n);
    if Number(U64(m)) == Number(U64(n)) {
      NumberDetermines(U64(m), U64(n));
    }
  }

  function Halves(low: nat, high: nat): nat {
    low + 0x1_0000_0000 * high
  }

  /** In memory the lower half of a 64-bit machine word comes first. */
  lemma HalvesInMemory(n: bv64)
    ensures var ws := WordsOf(Bytes64(n));
            |ws| == 2 && Number(n) == Halves(ws[0], ws[1])
  {
    hide Bytes64;
    BytesAreDigits(n);
  }
}
