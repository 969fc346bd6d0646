/**
 * Reading one scoop of many nonces out of a block: undoing the interleaving and doing the PoC2
 * shuffle on the way. The result is the plot of the CPU, byte for byte.
 */
module Transposition {
  import opened Words
  import opened Layout
  import opened WordPlot
  import opened CpuPlotter
  import opened Kernel

  const SCOOPS_PER_PLOT := 4096
  const SCOOP_WORDS := 16

  /** Word j of a scoop: the even hash as it stands, then the mirrored odd hash. */
  function ScoopWord(view: seq<word>, scoop: nat, j: nat): word
    requires |view| == NONCE_SIZE_WORDS && scoop < SCOOPS_PER_PLOT && j < SCOOP_WORDS
  {
    if j < 8 then view[8 * (2 * scoop) + j] else view[8 * (8192 - (2 * scoop + 1)) + (j - 8)]
  }

  /** The words that n nonces from k on contribute to one scoop. */
  function ScoopRow(flat: seq<word>, scoop: nat, k: nat, n: nat): (r: seq<word>)
    requires forall g | k <= g < k + n :: Fits(|flat|, g)
    requires scoop < SCOOPS_PER_PLOT
    ensures |r| == SCOOP_WORDS * n
  {
    seq(SCOOP_WORDS * n, i requires 0 <= i < SCOOP_WORDS * n =>
      ScoopWord(ViewOf(flat, k + i / SCOOP_WORDS), scoop, i % SCOOP_WORDS))
  }

  method CopyScoop(src: array<word>, des: array<word>, scoop: nat, nonce: nat, at: nat)
    requires src != des && scoop < SCOOPS_PER_PLOT && Fits(src.Length, nonce) && at + SCOOP_WORDS <= des.Length
    modifies des
    ensures forall j | 0 <= j < SCOOP_WORDS :: des[at + j] == ScoopWord(ViewOf(src[..], nonce), scoop, j)
    ensures forall i | 0 <= i < des.Length && !(at <= i < at + SCOOP_WORDS) :: des[i] == old(des[i])
  {
    hide Address, ViewOf;
    var lower := LoadHash(src, nonce, scoop * 2);
    var upper := LoadHash(src, nonce, 8192 - (scoop * 2 + 1));
    ghost var flat := src[..];
    forall j | 0 <= j < 8 {
      des[at + j] := lower[j];
    }
    forall j | 0 <= j < 8 {
      des[at + 8 + j] := upper[j];
    }
    assert src[..] == flat;
    forall j | 0 <= j < SCOOP_WORDS
      ensures des[at + j] == ScoopWord(ViewOf(src[..], nonce), scoop, j)
    {
      if j < 8 {
        assert des[at + j] == lower[j] == ViewOf(flat, nonce)[8 * (scoop * 2)..8 * (scoop * 2) + 8][j];
      } else {
        assert des[at + 8 + (j - 8)] == upper[j - 8];
        assert upper[j - 8] == ViewOf(flat, nonce)[8 * (8192 - (2 * scoop + 1)) + (j - 8)];
      }
    }
  }

  /** transposition: fills the write buffer with one scoop of nsize nonces. */
  method Transpose(src: array<word>, des: array<word>, scoop: nat, nstart: nat, nsize: nat)
    requires src != des && scoop < SCOOPS_PER_PLOT && SCOOP_WORDS * nsize <= des.Length
    requires forall g | nstart <= g < nstart + nsize :: Fits(src.Length, g)
    modifies des
    ensures des[..SCOOP_WORDS * nsize] == ScoopRow(src[..], scoop, nstart, nsize)
    ensures des[SCOOP_WORDS * nsize..] == old(des[SCOOP_WORDS * nsize..])
  {
    hide ScoopWord, ViewOf, Fits;
    for n := 0 to nsize
      invariant forall i | 0 <= i < SCOOP_WORDS * n ::
        des[i] == ScoopWord(ViewOf(src[..], nstart + i / SCOOP_WORDS), scoop, i % SCOOP_WORDS)
      invariant forall i | SCOOP_WORDS * n <= i < des.Length :: des[i] == old(des[i])
    {
      ghost var was := des[..];
      CopyScoop(src, des, scoop, nstart + n, SCOOP_WORDS * n);
      forall i | SCOOP_WORDS * n <= i < SCOOP_WORDS * n + SCOOP_WORDS
        ensures des[i] == ScoopWord(ViewOf(src[..], nstart + i / SCOOP_WORDS), scoop, i % SCOOP_WORDS)
      {
        var j := i - SCOOP_WORDS * n;
        assert i / SCOOP_WORDS == n && i % SCOOP_WORDS == j;
        assert des[SCOOP_WORDS * n + j] == ScoopWord(ViewOf(src[..], nstart + n), scoop, j);
      }
    }
  }

  /** Byte b of scoop s of a plot on the CPU, as the layout of plot files counts bytes. */
  function ScoopByte(plotId: bv64, nonce: bv64, scoop: nat, b: nat): byte
    requires scoop < SCOOPS_PER_PLOT && b < 64
  {
    PlotByte(plotId, nonce, 64 * scoop + b)
  }

  /**
   * GPU equals CPU: a finished nonce of the device buffer, read through the shuffle of the
   * transposition, gives the bytes of the reference plot of that nonce.
   */
  lemma GpuEqualsCpu(flat: seq<word>, gid: nat, plotId: bv64, startNonce: bv64, scoop: nat, j: nat, b: nat)
    requires Finished(flat, gid, ItemSeed(HtonUll(plotId), startNonce, gid))
    requires scoop < SCOOPS_PER_PLOT && j < SCOOP_WORDS && b < 4
    ensures ByteOf(ScoopWord(ViewOf(flat, gid), scoop, j), b)
         == ScoopByte(plotId, NonceAt(startNonce, gid), scoop, 4 * j + b)
  {
    hide ViewOf, HtonUll, EndianSwap64, NonceAt, MaskedWord, Masked, WordsOf, Seed, SeedWords, Fits, Source, ByteOf;
    var nonce := NonceAt(startNonce, gid);
    EndianSwapIsHton(nonce);
    SeedAgrees(plotId, nonce);
    var k := if j < 8 then 8 * (2 * scoop) + j else 8 * (8192 - (2 * scoop + 1)) + (j - 8);
    MaskAgrees(Seed(plotId, nonce), k, b);
    SourceOfScoop(scoop, j, b);
  }

  /** The same byte as it would be without the final mask. */
  function UnmaskedByte(plotId: bv64, nonce: bv64, scoop: nat, b: nat): byte
    requires scoop < SCOOPS_PER_PLOT && b < 64
  {
    Chain(Seed(plotId, nonce), NUM_HASHES)[Source(64 * scoop + b)]
  }

  /** A complete but unmasked nonce, read the same way, gives those bytes. */
  lemma UnmaskedEqualsCpu(flat: seq<word>, gid: nat, plotId: bv64, startNonce: bv64, scoop: nat, j: nat, b: nat)
    requires Grown(flat, gid, 0, ItemSeed(HtonUll(plotId), startNonce, gid))
    requires scoop < SCOOPS_PER_PLOT && j < SCOOP_WORDS && b < 4
    ensures ByteOf(ScoopWord(ViewOf(flat, gid), scoop, j), b)
         == UnmaskedByte(plotId, NonceAt(startNonce, gid), scoop, 4 * j + b)
  {
    hide ViewOf, HtonUll, EndianSwap64, NonceAt, WordChain, Chain, WordsOf, Seed, SeedWords, Fits, Source, ByteOf;
    var nonce := NonceAt(startNonce, gid);
    EndianSwapIsHton(nonce);
    SeedAgrees(plotId, nonce);
    var k := if j < 8 then 8 * (2 * scoop) + j else 8 * (8192 - (2 * scoop + 1)) + (j - 8);
    ChainByteAgrees(Seed(plotId, nonce), k, b);
    SourceOfScoop(scoop, j, b);
    assert ViewOf(flat, gid)[8 * 0..] == ViewOf(flat, gid);
  }

  /** The final hash of the nonce is all zeros. */
  ghost predicate ZeroFinal(plotId: bv64, nonce: bv64) {
    forall r | 0 <= r < 32 :: FinalHash(Seed(plotId, nonce))[r] == 0
  }

  /** In any scoop, masked and unmasked bytes agree exactly if the final hash is all zeros. */
  lemma MaskShows(plotId: bv64, nonce: bv64, scoop: nat)
    requires scoop < SCOOPS_PER_PLOT
    ensures (forall b | 0 <= b < 64 :: ScoopByte(plotId, nonce, scoop, b) == UnmaskedByte(plotId, nonce, scoop, b))
        <==> ZeroFinal(plotId, nonce)
  {
    hide Seed, FinalHash, Chain, BitXor;
    forall b | 0 <= b < 64
      ensures ScoopByte(plotId, nonce, scoop, b) == UnmaskedByte(plotId, nonce, scoop, b)
          <==> FinalHash(Seed(plotId, nonce))[b % 32] == 0
    {
      MaskShowsAt(plotId, nonce, scoop, b);
    }
    if forall b | 0 <= b < 64 :: ScoopByte(plotId, nonce, scoop, b) == UnmaskedByte(plotId, nonce, scoop, b) {
      forall r | 0 <= r < 32 ensures FinalHash(Seed(plotId, nonce))[r] == 0 {
        assert ScoopByte(plotId, nonce, scoop, r) == UnmaskedByte(plotId, nonce, scoop, r);
        assert r % 32 == r;
      }
    }
  }

  lemma MaskShowsAt(plotId: bv64, nonce: bv64, scoop: nat, b: nat)
    requires scoop < SCOOPS_PER_PLOT && b < 64
    ensures ScoopByte(plotId, nonce, scoop, b) == UnmaskedByte(plotId, nonce, scoop, b)
        <==> FinalHash(Seed(plotId, nonce))[b % 32] == 0
  {
    hide Seed, FinalHash, Chain, BitXor, ShuffledHash;
    var i := Source(64 * scoop + b);
    assert i % 32 == b % 32;
    XorIsNeutral(Chain(Seed(plotId, nonce), NUM_HASHES)[i], FinalHash(Seed(plotId, nonce))[b % 32]);
  }

  lemma SourceOfScoop(scoop: nat, j: nat, b: nat)
    requires scoop < SCOOPS_PER_PLOT && j < SCOOP_WORDS && b < 4
    ensures Source(64 * scoop + (4 * j + b))
         == 4 * (if j < 8 then 8 * (2 * scoop) + j else 8 * (8192 - (2 * scoop + 1)) + (j - 8)) + b
  {
    var i := 64 * scoop + (4 * j + b);
    if j < 8 {
      assert i / 32 == 2 * scoop;
    } else {
      assert i / 32 == 2 * scoop + 1;
    }
  }
}
