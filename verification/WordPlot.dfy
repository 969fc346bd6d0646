/** The plot of a nonce as the device sees it: in words, before the PoC2 shuffle. */
module WordPlot {
  import opened Words
  import opened Shabal
  import opened CpuPlotter

  const CAP_WORDS := 1024

  function CappedWords(t: seq<word>): (c: seq<word>)
    ensures |c| == if |t| > CAP_WORDS then CAP_WORDS else |t|
  {
    if |t| > CAP_WORDS then t[..CAP_WORDS] else t
  }

  /** The padding of a message of whole words. */
  function PadWords(m: seq<word>): (p: seq<word>)
    ensures |p| % 16 == 0 && |p| != 0
  {
    m + [0x80] + seq(15 - |m| % 16, _ => 0)
  }

  function WordDigest(m: seq<word>): (d: seq<word>)
    ensures |d| == 8
  {
    DigestOfBlocks(PadWords(m))
  }

  /** The chain of n hashes in words, newest first, with the seed at the end. */
  function WordChain(seed: seq<word>, n: nat): (c: seq<word>)
    ensures |c| == 8 * n + |seed|
  {
    if n == 0 then seed else WordDigest(CappedWords(WordChain(seed, n - 1))) + WordChain(seed, n - 1)
  }

  function FinalWords(seed: seq<word>): (f: seq<word>)
    ensures |f| == 8
  {
    WordDigest(WordChain(seed, NUM_HASHES))
  }

  function MaskedWord(seed: seq<word>, k: nat): word
    requires k < 65536
  {
    Xor(WordChain(seed, NUM_HASHES)[k], FinalWords(seed)[k % 8])
  }

  /** The words of the seed: two for the plot id and two for the nonce, bytes reversed. */
  function SeedWords(plotIdBe: bv64, nonceBe: bv64): (s: seq<word>)
    ensures |s| == 4
  {
    WordsOf(Bytes64(plotIdBe)) + WordsOf(Bytes64(nonceBe))
  }

  lemma WordChainStart(seed: seq<word>)
    ensures WordChain(seed, 0) == seed
  {
  }

  lemma WordChainStep(seed: seq<word>, n: nat)
    ensures WordChain(seed, n + 1) == WordDigest(CappedWords(WordChain(seed, n))) + WordChain(seed, n)
  {
    hide WordDigest, CappedWords;
  }

  lemma FinalWordsIs(seed: seq<word>)
    ensures FinalWords(seed) == WordDigest(WordChain(seed, NUM_HASHES))
  {
  }

  /** The digest of a message of n full blocks and a given padded tail. */
  lemma WordDigestByTail(m: seq<word>, n: nat, tail: seq<word>)
    requires 16 * n <= |m| < 16 * n + 16
    requires |tail| == 16
    requires tail[..|m| - 16 * n] == m[16 * n..]
    requires tail[|m| - 16 * n] == 0x80
    requires forall i | |m| - 16 * n < i < 16 :: tail[i] == 0
    ensures WordDigest(m) == Finish(Absorb(m, n), tail)
  {
    hide Absorb, Finish, DigestOfBlocks;
    var r := |m| - 16 * n;
    assert |m| % 16 == r;
    var head := m[..16 * n];
    assert m == head + tail[..r];
    assert tail == tail[..r] + [0x80] + tail[r + 1..];
    assert tail[r + 1..] == seq(15 - r, _ => 0);
    assert PadWords(m) == head + tail;
    DigestByTail(head, n, tail);
    assert head[..16 * n] == m[..16 * n];
    AbsorbPrefix(head, m, n);
  }

  // ---- the bytes of the CPU plot and the words of the device are the same plot --------

  /** Padding a message of whole words gives the same blocks in bytes and in words. */
  lemma PadAgrees(msg: seq<byte>, n: nat)
    requires |msg| == 4 * n
    ensures WordsOf(Pad(msg)) == PadWords(WordsOf(msg))
  {
    hide Pack, WordsOf;
    var z := seq(63 - |msg| % 64, _ => 0);
    assert Pad(msg) == msg + ([0x80] + z);
    WordsOfConcat(msg, [0x80] + z);
    PartialBlock(n);
    PadTailAgrees(n % 16, z);
  }

  lemma PartialBlock(n: nat)
    ensures 4 * n / 4 == n && 4 * n % 64 == 4 * (n % 16)
  {
    assert 4 * n == 64 * (n / 16) + 4 * (n % 16);
  }

  lemma PadTailAgrees(r: nat, z: seq<byte>)
    requires r < 16 && |z| == 63 - 4 * r && forall i | 0 <= i < |z| :: z[i] == 0
    ensures WordsOf([0x80] + z) == [0x80] + seq(15 - r, _ => 0)
  {
    hide Pack;
    var b := [0x80] + z;
    forall i | 0 <= i < 16 - r ensures WordsOf(b)[i] == if i == 0 then 0x80 else 0 {
      assert b[4 * i] == (if i == 0 then 0x80 else 0) && b[4 * i + 1] == 0 && b[4 * i + 2] == 0 && b[4 * i + 3] == 0;
      PackSmall(b[4 * i]);
    }
  }

  lemma PackSmall(b: byte)
    ensures Pack(b, 0, 0, 0) == b
  {
  }

  /** The byte digest in words is the word digest. */
  lemma DigestAgrees(msg: seq<byte>, n: nat)
    requires |msg| == 4 * n
    ensures WordsOf(Shabal256(msg)) == WordDigest(WordsOf(msg))
  {
    hide DigestOfBlocks, Pad, PadWords, BytesOf, WordsOf;
    PadAgrees(msg, n);
    WordsOfBytesOf(DigestOfBlocks(WordsOf(Pad(msg))));
  }

  lemma CappedAgrees(msg: seq<byte>, n: nat)
    requires |msg| == 4 * n
    ensures WordsOf(Capped(msg)) == CappedWords(WordsOf(msg))
  {
    hide WordsOf;
    if n > CAP_WORDS {
      WordsOfSlice(msg, 0, CAP_WORDS);
      assert msg[4 * 0..4 * CAP_WORDS] == msg[..HASH_CAP];
    }
  }

  /** The chain of the CPU plotter, read as words, is the word chain. */
  lemma {:induction false} ChainAgrees(seed: seq<byte>, n: nat)
    requires |seed| == 16
    ensures WordsOf(Chain(seed, n)) == WordChain(WordsOf(seed), n)
  {
    hide Shabal256, WordDigest, Capped, CappedWords, WordsOf;
    if n != 0 {
      var c := Chain(seed, n - 1);
      ChainAgrees(seed, n - 1);
      CappedAgrees(c, 8 * n - 4);
      DigestAgrees(Capped(c), |Capped(c)| / 4);
      WordsOfConcat(Shabal256(Capped(c)), c);
    }
  }

  lemma FinalAgrees(seed: seq<byte>)
    requires |seed| == 16
    ensures WordsOf(FinalHash(seed)) == FinalWords(WordsOf(seed))
  {
    hide Shabal256, WordDigest, Chain, WordChain, WordsOf;
    ChainAgrees(seed, NUM_HASHES);
    DigestAgrees(Chain(seed, NUM_HASHES), 65540);
  }

  lemma SeedAgrees(plotId: bv64, nonce: bv64)
    ensures WordsOf(Seed(plotId, nonce)) == SeedWords(HtonUll(plotId), HtonUll(nonce))
  {
    hide Bytes64, HtonUll, WordsOf;
    WordsOfConcat(Bytes64(HtonUll(plotId)), Bytes64(HtonUll(nonce)));
  }

  /** Byte j of word k before masking is byte 4k + j of the chain of the CPU. */
  lemma ChainByteAgrees(seed: seq<byte>, k: nat, j: nat)
    requires |seed| == 16 && k < 65536 && j < 4
    ensures ByteOf(WordChain(WordsOf(seed), NUM_HASHES)[k], j) == Chain(seed, NUM_HASHES)[4 * k + j]
  {
    hide Chain, WordChain, WordsOf, ByteOf;
    ChainAgrees(seed, NUM_HASHES);
    WordByte(Chain(seed, NUM_HASHES), k, j);
  }

  /** Byte j of word k after masking is byte 4k + j of the masked chain of the CPU. */
  lemma MaskAgrees(seed: seq<byte>, k: nat, j: nat)
    requires |seed| == 16 && k < 65536 && j < 4
    ensures ByteOf(MaskedWord(WordsOf(seed), k), j) == Masked(seed, 4 * k + j)
  {
    hide Chain, WordChain, FinalHash, FinalWords, WordsOf, ByteOf, Xor, XorByte;
    var c, f := Chain(seed, NUM_HASHES), FinalHash(seed);
    ChainAgrees(seed, NUM_HASHES);
    FinalAgrees(seed);
    ByteOfXor(WordsOf(c)[k], WordsOf(f)[k % 8], j);
    WordByte(c, k, j);
    WordByte(f, k % 8, j);
    IndexInHash(k, j);
  }

  lemma IndexInHash(k: nat, j: nat)
    requires j < 4
    ensures (4 * k + j) % 32 == 4 * (k % 8) + j
  {
    assert 4 * k + j == 32 * (k / 8) + (4 * (k % 8) + j);
  }

  lemma WordByte(b: seq<byte>, k: nat, j: nat)
    requires 4 * k + 4 <= |b| && j < 4
    ensures ByteOf(WordsOf(b)[k], j) == b[4 * k + j]
  {
    hide Pack, ByteOf;
    ByteOfPack(b[4 * k], b[4 * k + 1], b[4 * k + 2], b[4 * k + 3]);
    if j == 0 {} else if j == 1 {} else if j == 2 {} else {
      assert j == 3;
    }
  }
}
