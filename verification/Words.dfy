/**
 * Bytes, 32-bit words and 64-bit machine words.
 * Bytes and words are integers in range, and 32-bit arithmetic is written modulo
 * 2 to the 32; 64-bit identifiers and nonces are bit vectors.
 */
module Words {
  type byte = n: nat | n < 0x100
  type word = n: nat | n < 0x1_0000_0000

  // ---- 32-bit arithmetic ---------------------------------------------------------

  /** Sum and difference, wrapping round at 2 to the 32. */
  function Plus(x: word, y: word): word {
    if x + y < 0x1_0000_0000 then x + y else x + y - 0x1_0000_0000
  }

  function Minus(x: word, y: word): word {
    if y <= x then x - y else x - y + 0x1_0000_0000
  }

  function Times(x: word, c: nat): word {
    (x * c) % 0x1_0000_0000
  }

  /** Bitwise complement. */
  function Not(x: word): word {
    0xFFFF_FFFF - x
  }

  /** Rotation left by 1, 15 and 17 bits: the shift left drops the high bits, and the parts share no bit. */
  function Rotl1(x: word): word {
    (x % 0x8000_0000) * 2 + x / 0x8000_0000
  }

  function Rotl15(x: word): word {
    (x % 0x2_0000) * 0x8000 + x / 0x2_0000
  }

  function Rotl17(x: word): word {
    (x % 0x8000) * 0x2_0000 + x / 0x8000
  }

  /** The signed 32-bit machine integer that x wraps round to. */
  function Int32(x: int): (y: int)
    ensures -0x8000_0000 <= y < 0x8000_0000
  {
    (x + 0x8000_0000) % 0x1_0000_0000 - 0x8000_0000
  }

  /** Bitwise exclusive or, bit by bit from the low end. */
  function BitXor(x: nat, y: nat): nat
    decreases x + y
  {
    if x == 0 && y == 0 then 0 else (if x % 2 == y % 2 then 0 else 1) + 2 * BitXor(x / 2, y / 2)
  }

  /** Bitwise and. */
  function BitAnd(x: nat, y: nat): nat
    decreases x
  {
    if x == 0 then 0 else (if y % 2 == 1 then x % 2 else 0) + 2 * BitAnd(x / 2, y / 2)
  }

  function Pow2(k: nat): nat {
    if k == 0 then 1 else 2 * Pow2(k - 1)
  }

  lemma {:induction false} BitXorBelow(x: nat, y: nat, k: nat)
    requires x < Pow2(k) && y < Pow2(k)
    ensures BitXor(x, y) < Pow2(k)
  {
    if k != 0 {
      BitXorBelow(x / 2, y / 2, k - 1);
    }
  }

  lemma {:induction false} BitAndAtMost(x: nat, y: nat)
    ensures BitAnd(x, y) <= x
  {
    if x != 0 {
      BitAndAtMost(x / 2, y / 2);
    }
  }

  lemma Pow2At8And32()
    ensures Pow2(8) == 0x100 && Pow2(32) == 0x1_0000_0000
  {
    assert Pow2(2) == 4 && Pow2(4) == 0x10 && Pow2(6) == 0x40 && Pow2(8) == 0x100;
    assert Pow2(10) == 0x400 && Pow2(12) == 0x1000 && Pow2(14) == 0x4000 && Pow2(16) == 0x1_0000;
    assert Pow2(18) == 0x4_0000 && Pow2(20) == 0x10_0000 && Pow2(22) == 0x40_0000 && Pow2(24) == 0x100_0000;
    assert Pow2(26) == 0x400_0000 && Pow2(28) == 0x1000_0000 && Pow2(30) == 0x4000_0000;
  }

  /** A larger factor makes a product that is no smaller. */
  lemma AtLeast(q: nat, p: nat, unit: nat)
    requires q >= p
    ensures q * unit >= p * unit
  {
  }

  function Xor(x: word, y: word): word {
    Pow2At8And32();
    BitXorBelow(x, y, 32);
    BitXor(x, y)
  }

  function XorByte(x: byte, y: byte): byte {
    Pow2At8And32();
    BitXorBelow(x, y, 8);
    BitXor(x, y)
  }

  /** x & ~y */
  function AndNot(x: word, y: word): word {
    BitAndAtMost(x, Not(y));
    BitAnd(x, Not(y))
  }

  lemma {:induction false} XorUndoesXor(x: nat, y: nat)
    ensures BitXor(BitXor(x, y), y) == x
    decreases x + y
  {
    if x + y != 0 {
      XorUndoesXor(x / 2, y / 2);
      var bit, high := if x % 2 == y % 2 then 0 else 1, BitXor(x / 2, y / 2);
      XorStep(x, y);
      BitAndHigh(bit, high);
      XorStep(bit + 2 * high, y);
      hide BitXor;
    }
  }

  lemma BitAndHigh(bit: nat, high: nat)
    requires bit < 2
    ensures (bit + 2 * high) % 2 == bit && (bit + 2 * high) / 2 == high
  {
  }

  /** Exclusive or changes nothing exactly with 0. */
  lemma {:induction false} XorIsNeutral(x: nat, y: nat)
    ensures BitXor(x, y) == x <==> y == 0
    decreases x + y
  {
    if x + y != 0 {
      XorIsNeutral(x / 2, y / 2);
      XorStep(x, y);
      hide BitXor;
    }
  }

  /** The lowest bit of an exclusive or, and the bits above it. */
  lemma XorStep(x: nat, y: nat)
    ensures BitXor(x, y) == (if x % 2 == y % 2 then 0 else 1) + 2 * BitXor(x / 2, y / 2)
  {
  }

  // ---- bytes and words in memory ----------------------------------------------------

  /** The little-endian word whose bytes in memory are b0, b1, b2, b3. */
  function Pack(b0: byte, b1: byte, b2: byte, b3: byte): word {
    b0 + 0x100 * b1 + 0x1_0000 * b2 + 0x100_0000 * b3
  }

  /** The i-th byte in memory of a little-endian word. */
  function ByteOf(w: word, i: nat): byte
    requires i < 4
  {
    if i == 0 then w % 0x100
    else if i == 1 then w / 0x100 % 0x100
    else if i == 2 then w / 0x100 / 0x100 % 0x100
    else w / 0x100 / 0x100 / 0x100
  }

  lemma ByteOfPack(b0: byte, b1: byte, b2: byte, b3: byte)
    ensures ByteOf(Pack(b0, b1, b2, b3), 0) == b0
    ensures ByteOf(Pack(b0, b1, b2, b3), 1) == b1
    ensures ByteOf(Pack(b0, b1, b2, b3), 2) == b2
    ensures ByteOf(Pack(b0, b1, b2, b3), 3) == b3
  {
  }

  lemma PackByteOf(w: word)
    ensures Pack(ByteOf(w, 0), ByteOf(w, 1), ByteOf(w, 2), ByteOf(w, 3)) == w
  {
  }

  lemma {:induction false} BitXorSplits(x: nat, y: nat, p: nat, q: nat, k: nat)
    requires x < Pow2(k) && y < Pow2(k)
    ensures BitXor(x + Pow2(k) * p, y + Pow2(k) * q) == BitXor(x, y) + Pow2(k) * BitXor(p, q)
    decreases k
  {
    hide BitXor;
    if k == 0 {
      XorZero();
    } else {
      var m := Pow2(k - 1);
      BitXorSplits(x / 2, y / 2, p, q, k - 1);
      TwiceTimes(m, p);
      TwiceTimes(m, q);
      TwiceTimes(m, BitXor(p, q));
      XorShift(x, y, m * p, m * q);
      XorStep(x, y);
    }
  }

  lemma XorZero()
    ensures BitXor(0, 0) == 0
  {
  }

  lemma XorShift(x: nat, y: nat, u: nat, v: nat)
    ensures BitXor(x + 2 * u, y + 2 * v) == (if x % 2 == y % 2 then 0 else 1) + 2 * BitXor(x / 2 + u, y / 2 + v)
  {
    assert (x + 2 * u) / 2 == x / 2 + u && (y + 2 * v) / 2 == y / 2 + v;
    XorStep(x + 2 * u, y + 2 * v);
  }

  lemma TwiceTimes(m: nat, p: nat)
    ensures (2 * m) * p == 2 * (m * p)
  {
  }

  /** The lowest byte of an exclusive or, and the bytes above it. */
  lemma XorByByte(x: nat, y: nat)
    ensures BitXor(x, y) % 0x100 == BitXor(x % 0x100, y % 0x100)
    ensures BitXor(x, y) / 0x100 == BitXor(x / 0x100, y / 0x100)
  {
    hide BitXor, Pow2;
    Pow2At8And32();
    BitXorSplits(x % 0x100, y % 0x100, x / 0x100, y / 0x100, 8);
    BitXorBelow(x % 0x100, y % 0x100, 8);
  }

  /** Exclusive or of two words in memory is exclusive or of their bytes. */
  lemma ByteOfXor(v: word, w: word, i: nat)
    requires i < 4
    ensures ByteOf(Xor(v, w), i) == XorByte(ByteOf(v, i), ByteOf(w, i))
  {
    hide BitXor, Pow2;
    XorByByte(v, w);
    XorByByte(v / 0x100, w / 0x100);
    XorByByte(v / 0x100 / 0x100, w / 0x100 / 0x100);
  }

  /** The words stored in a byte sequence; trailing bytes short of a word are ignored. */
  function WordsOf(b: seq<byte>): (ws: seq<word>)
    ensures |ws| == |b| / 4
  {
    seq(|b| / 4, i requires 0 <= i < |b| / 4 => Pack(b[4 * i], b[4 * i + 1], b[4 * i + 2], b[4 * i + 3]))
  }

  /** The bytes in memory of a word sequence. */
  function BytesOf(ws: seq<word>): (b: seq<byte>)
    ensures |b| == 4 * |ws|
  {
    seq(4 * |ws|, i requires 0 <= i < 4 * |ws| => ByteOf(ws[i / 4], i % 4))
  }

  lemma BytesOfAt(ws: seq<word>, i: nat, j: nat)
    requires i < |ws| && j < 4
    ensures BytesOf(ws)[4 * i + j] == ByteOf(ws[i], j)
  {
    hide ByteOf;
    assert (4 * i + j) / 4 == i && (4 * i + j) % 4 == j;
  }

  lemma WordsOfBytesOf(ws: seq<word>)
    ensures WordsOf(BytesOf(ws)) == ws
  {
    hide Pack, ByteOf;
    forall i | 0 <= i < |ws| ensures WordsOf(BytesOf(ws))[i] == ws[i] {
      BytesOfAt(ws, i, 0);
      BytesOfAt(ws, i, 1);
      BytesOfAt(ws, i, 2);
      BytesOfAt(ws, i, 3);
      PackByteOf(ws[i]);
    }
  }

  lemma WordsOfConcat(x: seq<byte>, y: seq<byte>)
    requires |x| % 4 == 0
    ensures WordsOf(x + y) == WordsOf(x) + WordsOf(y)
  {
    hide Pack;
  }

  lemma WordsOfSlice(b: seq<byte>, lo: nat, hi: nat)
    requires lo <= hi && 4 * hi <= |b|
    ensures WordsOf(b)[lo..hi] == WordsOf(b[4 * lo..4 * hi])
  {
    hide Pack;
  }

  lemma BytesOfSlice(ws: seq<word>, lo: nat, hi: nat)
    requires lo <= hi <= |ws|
    ensures BytesOf(ws[lo..hi]) == BytesOf(ws)[4 * lo..4 * hi]
  {
    hide ByteOf;
  }

  // ---- 64-bit machine words -----------------------------------------------------------

  /** One more, wrapping round at 2 to the 64. */
  function Next(x: bv64): bv64 {
    x + 1
  }

  /** The 64-bit sum of x and k. */
  function NonceAt(x: bv64, k: nat): bv64 {
    if k == 0 then x else Next(NonceAt(x, k - 1))
  }

  /** The 64-bit machine word that holds n, that is, n modulo 2 to the 64. */
  function U64(n: nat): bv64 {
    NonceAt(0, n)
  }

  /** Wrapping sums associate, so a nonce may be reached in any number of hops. */
  lemma {:induction false} NonceAtSum(x: bv64, m: nat, n: nat)
    ensures NonceAt(NonceAt(x, m), n) == NonceAt(x, m + n)
  {
    if n != 0 {
      NonceAtSum(x, m, n - 1);
    }
  }

  /** A 64-bit machine word with its bytes in the opposite order, as the host computes it. */
  function HtonUll(n: bv64): bv64 {
    ((n & 0xff00000000000000) >> 56)
    | ((n & 0x00ff000000000000) >> 40)
    | ((n & 0x0000ff0000000000) >> 24)
    | ((n & 0x000000ff00000000) >> 8)
    | ((n & 0x00000000ff000000) << 8)
    | ((n & 0x0000000000ff0000) << 24)
    | ((n & 0x000000000000ff00) << 40)
    | ((n & 0x00000000000000ff) << 56)
  }

  function Rotate64(n: bv64, k: bv64): bv64
    requires 0 < k < 64
  {
    (n << k) | (n >> (64 - k))
  }

  /** OpenCL's bitselect: the bits of b where the mask is set, of a elsewhere. */
  function BitSelect(a: bv64, b: bv64, mask: bv64): bv64 {
    (a & !mask) | (b & mask)
  }

  /** The kernel's byte reversal, by four rotations and three selections. */
  function EndianSwap64(n: bv64): bv64 {
    BitSelect(
      BitSelect(Rotate64(n, 24), Rotate64(n, 8), 0x000000FF000000FF),
      BitSelect(Rotate64(n, 56), Rotate64(n, 40), 0x00FF000000FF0000),
      0xFFFF0000FFFF0000)
  }

  /** The host's and the device's byte reversals agree. */
  lemma EndianSwapIsHton(n: bv64)
    ensures EndianSwap64(n) == HtonUll(n)
  {
  }

  /** The lowest byte of a 64-bit machine word. */
  function LowByte(n: bv64): byte {
    (n & 0xFF) as nat
  }

  /** The eight bytes in memory of a 64-bit machine word. */
  function Bytes64(n: bv64): (b: seq<byte>)
    ensures |b| == 8
  {
    [LowByte(n), LowByte(n >> 8), LowByte(n >> 16), LowByte(n >> 24),
     LowByte(n >> 32), LowByte(n >> 40), LowByte(n >> 48), LowByte(n >> 56)]
  }
}
