/** Shabal-256: the mode of operation and the keyed permutation, as pure functions. */
module Shabal {
  import opened Words

  type ARow = s: seq<word> | |s| == 12 witness [0, 0, 0, 0, 0, 0, 0, 0, 0, 0, 0, 0]
  type BRow = s: seq<word> | |s| == 16 witness [0, 0, 0, 0, 0, 0, 0, 0, 0, 0, 0, 0, 0, 0, 0, 0]

  /** The two shift registers that the keyed permutation works on. */
  datatype Regs = Regs(a: ARow, b: BRow)

  /** The chaining state: A, B, C and the two words of the block counter. */
  datatype State = State(a: ARow, b: BRow, c: BRow, wlow: word, whigh: word)

  function AInit(): ARow {
    [
     0x52F84552, 0xE54B7999, 0x2D8EE3EC, 0xB9645191, 0xE0078B86, 0xBB7C44C9,
    0xD2B5C1CA, 0xB0D2EB8C, 0x14CE5A45, 0x22AF50DC, 0xEFFDBC6B, 0xEB21B74A]
  }

  function BInit(): BRow {
    [
     0xB555C6EE, 0x3E710596, 0xA72A652F, 0x9301515F, 0xDA28C1FA, 0x696FD868, 0x9CB6BF72, 0x0AFE4002,
    0xA6E03615, 0x5138C1D4, 0xBE216306, 0xB38B8890, 0x3EA8B96B, 0x3299ACE4, 0x30924DD4, 0x55CB34A5]
  }

  function CInit(): BRow {
    [
     0xB405F031, 0xC4233EBA, 0xB3733979, 0xC0DD9D55, 0xC51C28AE, 0xA327B8E1, 0x56C56167, 0xED614433,
    0x88B59D60, 0x60E2CEBA, 0x758B4B8B, 0x83E82A7F, 0xBC968828, 0xE6E00BF7, 0xBA839E55, 0x9B491C60]
  }

  /** The precomputed state for 256-bit output; the counter starts at 1. */
  function Initial(): State {
    State(AInit(), BInit(), CInit(), 1, 0)
  }

  // ---- the keyed permutation -------------------------------------------------

  /** ((xa0 ^ u ^ xc) * 3) ^ xb1 ^ q ^ xm, with u and q the rotated and the masked register. */
  function MixA(xa0: word, u: word, xc: word, xb1: word, q: word, xm: word): word {
    Xor(Xor(Xor(Times(Xor(Xor(xa0, u), xc), 3), xb1), q), xm)
  }

  function NewA(xa0: word, xa1: word, xb1: word, xb2: word, xb3: word, xc: word, xm: word): word {
    MixA(xa0, Times(Rotl15(xa1), 5), xc, xb1, AndNot(xb2, xb3), xm)
  }

  function NewB(xb0: word, xa0: word): word {
    Not(Xor(Rotl1(xb0), xa0))
  }

  /** Element step k of the permutation, with indices taken modulo 12 and 16. */
  function Step(k: nat, r: Regs, c: BRow, m: BRow): Regs {
    var a := NewA(r.a[k % 12], r.a[(k + 11) % 12], r.b[(k + 13) % 16], r.b[(k + 9) % 16],
                  r.b[(k + 6) % 16], c[(8 - k) % 16], m[k % 16]);
    Regs(r.a[k % 12 := a], r.b[k % 16 := NewB(r.b[k % 16], a)])
  }

  function Steps(n: nat, r: Regs, c: BRow, m: BRow): Regs {
    if n == 0 then r else Step(n - 1, Steps(n - 1, r, c, m), c, m)
  }

  /** The k-th of the additions of C into A that close the permutation. */
  function AddC(k: nat, a: ARow, c: BRow): ARow {
    a[k % 12 := Plus(a[k % 12], c[(k + 3) % 16])]
  }

  function AddsC(n: nat, a: ARow, c: BRow): ARow {
    if n == 0 then a else AddC(n - 1, AddsC(n - 1, a, c), c)
  }

  function RotateB(b: BRow): BRow {
    seq(16, i requires 0 <= i < 16 => Rotl17(b[i]))
  }

  /** The keyed permutation: three passes over the message words, then three over A. */
  function ApplyP(r: Regs, c: BRow, m: BRow): Regs {
    var s := Steps(3 * |m|, Regs(r.a, RotateB(r.b)), c, m);
    Regs(AddsC(3 * |s.a|, s.a, c), s.b)
  }

  // ---- the mode of operation ---------------------------------------------------

  function AddRow(x: BRow, y: BRow): BRow {
    seq(16, i requires 0 <= i < 16 => Plus(x[i], y[i]))
  }

  function SubRow(x: BRow, y: BRow): BRow {
    seq(16, i requires 0 <= i < 16 => Minus(x[i], y[i]))
  }

  function XorW(a: ARow, wlow: word, whigh: word): ARow {
    a[0 := Xor(a[0], wlow)][1 := Xor(a[1], whigh)]
  }

  /** Add the block, xor in the counter, permute. */
  function Inject(s: State, m: BRow): State {
    var r := ApplyP(Regs(XorW(s.a, s.wlow, s.whigh), AddRow(s.b, m)), s.c, m);
    s.(a := r.a, b := r.b)
  }

  /** The message round for one full block. */
  function Compress(s: State, m: BRow): State {
    var t := Inject(s, m);
    var low := Plus(s.wlow, 1);
    State(t.a, SubRow(s.c, m), t.b, low, if low == 0 then Plus(s.whigh, 1) else s.whigh)
  }

  /** One of the three closing rounds. */
  function Blank(s: State, m: BRow): State {
    var r := ApplyP(Regs(XorW(s.a, s.wlow, s.whigh), s.c), s.b, m);
    s.(a := r.a, b := r.b, c := s.b)
  }

  function Blanks(n: nat, s: State, m: BRow): State {
    if n == 0 then s else Blank(Blanks(n - 1, s, m), m)
  }

  /** The last (padded) block, the three closing rounds, and the eight words of output. */
  function Finish(s: State, m: BRow): (d: seq<word>)
    ensures |d| == 8
  {
    Blanks(3, Inject(s, m), m).b[8..]
  }

  /** The state after the first n blocks of w. */
  function Absorb(w: seq<word>, n: nat): State
    requires 16 * n <= |w|
  {
    if n == 0 then Initial() else Compress(Absorb(w, n - 1), w[16 * n - 16..16 * n])
  }

  /** The eight output words for a message that is already padded to whole blocks. */
  function DigestOfBlocks(w: seq<word>): (d: seq<word>)
    requires |w| % 16 == 0 && |w| != 0
    ensures |d| == 8
  {
    Finish(Absorb(w, |w| / 16 - 1), w[|w| - 16..])
  }

  /** A one bit, then zeros up to a whole number of blocks. */
  function Pad(msg: seq<byte>): (p: seq<byte>)
    ensures |p| % 64 == 0 && |p| != 0
  {
    msg + [0x80] + seq(63 - |msg| % 64, _ => 0)
  }

  /** Shabal-256 of a byte string, by definition: pad, fold, finish. */
  function Shabal256(msg: seq<byte>): (d: seq<byte>)
    ensures |d| == 32
  {
    BytesOf(DigestOfBlocks(WordsOf(Pad(msg))))
  }

  /** Closing on the padded tail, after n full blocks, gives the digest of the message. */
  lemma Shabal256ByTail(msg: seq<byte>, n: nat, tail: seq<byte>)
    requires 64 * n <= |msg| < 64 * n + 64
    requires |tail| == 64
    requires tail[..|msg| - 64 * n] == msg[64 * n..]
    requires tail[|msg| - 64 * n] == 0x80
    requires forall i | |msg| - 64 * n < i < 64 :: tail[i] == 0
    ensures Shabal256(msg) == BytesOf(Finish(Absorb(WordsOf(msg), n), WordsOf(tail)))
  {
    hide Pad, DigestOfBlocks, WordsOf, BytesOf, Absorb, Finish;
    var head := msg[..64 * n];
    PadSplits(msg, n, tail);
    WholeBlocks(n);
    WordsOfConcat(head, tail);
    DigestByTail(WordsOf(head), n, WordsOf(tail));
    AbsorbHead(msg, n);
  }

  lemma WholeBlocks(n: nat)
    ensures 64 * n % 4 == 0 && 64 * n / 4 == 16 * n
  {
  }

  lemma PadSplits(msg: seq<byte>, n: nat, tail: seq<byte>)
    requires 64 * n <= |msg| < 64 * n + 64
    requires |tail| == 64
    requires tail[..|msg| - 64 * n] == msg[64 * n..]
    requires tail[|msg| - 64 * n] == 0x80
    requires forall i | |msg| - 64 * n < i < 64 :: tail[i] == 0
    ensures Pad(msg) == msg[..64 * n] + tail
  {
    var r := |msg| - 64 * n;
    assert |msg| % 64 == r;
    assert msg == msg[..64 * n] + tail[..r];
    assert tail == tail[..r] + [0x80] + tail[r + 1..];
    assert tail[r + 1..] == seq(63 - r, _ => 0);
  }

  lemma AbsorbHead(msg: seq<byte>, n: nat)
    requires 64 * n <= |msg|
    ensures Absorb(WordsOf(msg[..64 * n]), n) == Absorb(WordsOf(msg), n)
  {
    hide Absorb, WordsOf;
    WordsOfSlice(msg, 0, 16 * n);
    assert msg[4 * 0..4 * (16 * n)] == msg[..64 * n];
    AbsorbPrefix(WordsOf(msg[..64 * n]), WordsOf(msg), n);
  }

  lemma AbsorbNone(w: seq<word>)
    ensures Absorb(w, 0) == Initial()
  {
  }

  /** Absorbing looks only at the blocks it counts. */
  lemma {:induction false} AbsorbPrefix(v: seq<word>, w: seq<word>, n: nat)
    requires 16 * n <= |v| && 16 * n <= |w|
    requires v[..16 * n] == w[..16 * n]
    ensures Absorb(v, n) == Absorb(w, n)
  {
    hide Compress;
    if n != 0 {
      assert v[..16 * n - 16] == v[..16 * n][..16 * n - 16] == w[..16 * n - 16];
      AbsorbPrefix(v, w, n - 1);
      assert v[16 * n - 16..16 * n] == v[..16 * n][16 * n - 16..] == w[16 * n - 16..16 * n];
    }
  }

  /** The digest of whole blocks, when the last one is named. */
  lemma DigestByTail(head: seq<word>, n: nat, tail: seq<word>)
    requires |head| == 16 * n && |tail| == 16
    ensures DigestOfBlocks(head + tail) == Finish(Absorb(head, n), tail)
  {
    hide Finish, Absorb;
    assert |head + tail| / 16 - 1 == n;
    assert (head + tail)[|head + tail| - 16..] == tail;
    assert (head + tail)[..16 * n] == head[..16 * n];
    AbsorbPrefix(head + tail, head, n);
  }

  /** The number that Whigh and Wlow hold together. */
  function Counter(s: State): nat {
    s.whigh * 0x1_0000_0000 + s.wlow
  }

  lemma CarryIsAddition(s: State, m: BRow)
    ensures Counter(Compress(s, m)) == (Counter(s) + 1) % 0x1_0000_0000_0000_0000
  {
    hide Inject, SubRow;
  }

  /** The two-word counter is a 64-bit counter: it holds blocks + 1 across every carry. */
  lemma {:induction false} CounterCountsBlocks(w: seq<word>, n: nat)
    requires 16 * n <= |w|
    ensures Counter(Absorb(w, n)) == (n + 1) % 0x1_0000_0000_0000_0000
  {
    hide Compress, Counter, Initial;
    if n == 0 {
      InitialCounter();
    } else {
      CounterCountsBlocks(w, n - 1);
      CarryIsAddition(Absorb(w, n - 1), w[16 * n - 16..16 * n]);
      OneMore(n);
    }
  }

  lemma OneMore(n: nat)
    ensures (n % 0x1_0000_0000_0000_0000 + 1) % 0x1_0000_0000_0000_0000 == (n + 1) % 0x1_0000_0000_0000_0000
  {
  }

  lemma InitialCounter()
    ensures Counter(Initial()) == 1
  {
  }
}
