/** The reference plot: one nonce, computed on the CPU over a byte buffer. */
module CpuPlotter {
  import opened Words
  import opened Bits
  import opened Shabal
  import opened ShabalContext

  const HASH_SIZE := 32
  const NUM_HASHES := 8192
  const PLOT_SIZE := 262144
  const SEED_LENGTH := 16
  const PLOT_TOTAL_SIZE := 262160
  const HASH_CAP := 4096

  /** The seed: plot id and nonce, most significant byte first. */
  function Seed(plotId: bv64, nonce: bv64): (s: seq<byte>)
    ensures |s| == SEED_LENGTH
  {
    Bytes64(HtonUll(plotId)) + Bytes64(HtonUll(nonce))
  }

  /** The seed holds the numbers of the plot id and the nonce, each most significant byte first. */
  lemma SeedDigits(plotId: bv64, nonce: bv64)
    ensures BigEndian(Seed(plotId, nonce)[..8]) == Number(plotId)
    ensures BigEndian(Seed(plotId, nonce)[8..]) == Number(nonce)
  {
    hide BigEndian, Number, Bytes64, HtonUll;
    HtonBytes(plotId);
    HtonBytes(nonce);
    assert Seed(plotId, nonce)[..8] == Bytes64(HtonUll(plotId));
    assert Seed(plotId, nonce)[8..] == Bytes64(HtonUll(nonce));
  }

  /** Nonces that differ modulo 2 to the 64 have different seeds, also within one file. */
  lemma SeedsDiffer(plotId: bv64, m: nat, n: nat)
    ensures Seed(plotId, U64(m)) == Seed(plotId, U64(n)) <==>
            m % 0x1_0000_0000_0000_0000 == n % 0x1_0000_0000_0000_0000
  {
    hide Seed, U64, Number;
    SeedDigits(plotId, U64(m));
    SeedDigits(plotId, U64(n));
    NumberOfU64(m);
    NumberOfU64(n);
    U64SameIff(m, n);
  }

  /** What one hash of the chain covers: at most the first 4096 bytes. */
  function Capped(b: seq<byte>): (c: seq<byte>)
    ensures |c| == if |b| > HASH_CAP then HASH_CAP else |b|
  {
    if |b| > HASH_CAP then b[..HASH_CAP] else b
  }

  /** The hash chain grown to n hashes, newest first, with the seed at the end. */
  function Chain(seed: seq<byte>, n: nat): (c: seq<byte>)
    ensures |c| == 32 * n + |seed|
  {
    if n == 0 then seed else Shabal256(Capped(Chain(seed, n - 1))) + Chain(seed, n - 1)
  }

  /** The hash over the whole chain and the seed, which is not capped. */
  function FinalHash(seed: seq<byte>): (f: seq<byte>)
    ensures |f| == 32
  {
    Shabal256(Chain(seed, NUM_HASHES))
  }

  /** Byte i of the chain, masked by the final hash. */
  function Masked(seed: seq<byte>, i: nat): byte
    requires i < PLOT_SIZE
  {
    XorByte(Chain(seed, NUM_HASHES)[i], FinalHash(seed)[i % 32])
  }

  /** Where the PoC2 shuffle takes hash h of the plot from: odd hashes change ends. */
  function ShuffledHash(h: nat): (g: nat)
    requires h < NUM_HASHES
    ensures g < NUM_HASHES
  {
    if h % 2 == 1 then NUM_HASHES - h else h
  }

  /** Where byte i of the finished plot comes from. */
  function Source(i: nat): (j: nat)
    requires i < PLOT_SIZE
    ensures j < PLOT_SIZE
  {
    32 * ShuffledHash(i / 32) + i % 32
  }

  /** Byte i of the finished plot. */
  function PlotByte(plotId: bv64, nonce: bv64, i: nat): byte
    requires i < PLOT_SIZE
  {
    Masked(Seed(plotId, nonce), Source(i))
  }

  /** The odd hashes are exchanged in pairs, so shuffling twice changes nothing. */
  lemma ShuffleIsInvolution(h: nat)
    requires h < NUM_HASHES
    ensures ShuffledHash(ShuffledHash(h)) == h
  {
  }

  class Plotter {
    const data: array<byte>

    constructor ()
      ensures data.Length == PLOT_TOTAL_SIZE && fresh(data)
    {
      data := new byte[PLOT_TOTAL_SIZE](_ => 0);
    }

    /** Stores a 64-bit machine word at a byte offset. */
    method Store64(at: nat, v: bv64)
      requires at + 8 <= data.Length
      modifies data
      ensures data[at..at + 8] == Bytes64(v)
      ensures data[..at] == old(data[..at]) && data[at + 8..] == old(data[at + 8..])
    {
      hide Bytes64;
      var b := Bytes64(v);
      forall i | 0 <= i < 8 {
        data[at + i] := b[i];
      }
      assert data[at..at + 8] == b;
    }

    /** BYTES_SWAP_64: exchanges the eight bytes at i with the eight bytes at j. */
    method BytesSwap64(i: nat, j: nat)
      requires i + 8 <= j && j + 8 <= data.Length
      modifies data
      ensures data[..] == Exchanged(old(data[..]), i, j, 8)
    {
      var t := data[i..i + 8];
      forall k | 0 <= k < 8 {
        data[i + k] := data[j + k];
      }
      forall k | 0 <= k < 8 {
        data[j + k] := t[k];
      }
    }

    /** The four 64-bit exchanges of one pass: hash at i with hash at j. */
    method SwapHashes(i: nat, j: nat)
      requires i + 32 <= j && j + 32 <= data.Length
      modifies data
      ensures data[..] == Exchanged(old(data[..]), i, j, 32)
    {
      hide Exchanged;
      BytesSwap64(i, j);
      BytesSwap64(i + 8, j + 8);
      ExchangedTwice(old(data[..]), i, j, 8);
      BytesSwap64(i + 16, j + 16);
      ExchangedTwice(old(data[..]), i, j, 16);
      BytesSwap64(i + 24, j + 24);
      ExchangedTwice(old(data[..]), i, j, 24);
    }

    /** One hash of the chain: the capped tail from i on, hashed into the 32 bytes before i. */
    method PrependHash(context: Context, i: nat)
      requires context.Valid() && context.absorbed == [] && context.buf != data
      requires 32 <= i <= PLOT_SIZE && data.Length == PLOT_TOTAL_SIZE
      modifies data, context, context.buf
      ensures context.Valid() && context.absorbed == []
      ensures data[i - 32..] == Shabal256(Capped(old(data[i..]))) + old(data[i..])
    {
      hide Shabal256, Capped, Absorb, WordsOf;
      var len := PLOT_TOTAL_SIZE - i;
      if len > HASH_CAP {
        len := HASH_CAP;
      }
      ghost var tail := data[i..];
      context.Update(data, i, len);
      CappedIs(tail, len);
      assert data[i..i + len] == tail[..len];
      assert context.absorbed == Capped(tail);
      context.Close(data, i - HASH_SIZE);
      assert data[i - 32..] == data[i - 32..i - 32 + 32] + data[i - 32 + 32..];
    }

    /** The hash chain, from the last hash of the buffer down to the first. */
    method HashChain(context: Context, ghost seed: seq<byte>)
      requires context.Valid() && context.absorbed == [] && context.buf != data
      requires data.Length == PLOT_TOTAL_SIZE && data[PLOT_SIZE..] == seed
      modifies data, context, context.buf
      ensures context.Valid() && context.absorbed == []
      ensures data[..] == Chain(seed, NUM_HASHES)
    {
      hide Shabal256, Capped, Chain, Absorb, WordsOf;
      var i := PLOT_SIZE;
      ghost var n: nat := 0;
      ChainStart(seed);
      while i > 0
        invariant 0 <= i && i == 32 * (NUM_HASHES - n)
        invariant context.Valid() && context.absorbed == []
        invariant data[i..] == Chain(seed, n)
      {
        PrependHash(context, i);
        ChainStep(seed, n);
        i := i - HASH_SIZE;
        n := n + 1;
      }
      assert data[0..] == data[..];
    }

    /** Xors the plot with the final hash, byte by byte. */
    method MaskAll(final: seq<byte>)
      requires data.Length == PLOT_TOTAL_SIZE && |final| == 32
      modifies data
      ensures forall k | 0 <= k < PLOT_SIZE :: data[k] == XorByte(old(data[k]), final[k % 32])
    {
      hide XorByte;
      for i := 0 to PLOT_SIZE
        invariant forall k | 0 <= k < i :: data[k] == XorByte(old(data[k]), final[k % 32])
        invariant forall k | i <= k < PLOT_SIZE :: data[k] == old(data[k])
      {
        data[i] := XorByte(data[i], final[i % 32]);
      }
    }

    /** The PoC2 shuffle in place: every odd hash of the lower half with its mirror. */
    method Shuffle()
      requires data.Length == PLOT_TOTAL_SIZE
      modifies data
      ensures forall k | 0 <= k < PLOT_SIZE :: data[k] == old(data[Source(k)])
    {
      hide Exchanged, Source;
      var i, j := 32, PLOT_SIZE - HASH_SIZE;
      ghost var n: nat := 0;
      while i < PLOT_SIZE / 2
        invariant n <= 2048 && i == 64 * n + 32 && j == PLOT_SIZE - i
        invariant forall k | 0 <= k < PLOT_SIZE && (k < i - 32 || k >= j + 32) ::
          data[k] == old(data[Source(k)])
        invariant forall k | i - 32 <= k < j + 32 && k < PLOT_SIZE :: data[k] == old(data[k])
      {
        ghost var was := data[..];
        SwapHashes(i, j);
        forall k | 0 <= k < PLOT_SIZE
          ensures i - 32 <= k < i + 32 || j - 32 <= k < j + 32 ==> data[k] == old(data[Source(k)])
          ensures !(i <= k < i + 32 || j <= k < j + 32) ==> data[k] == was[k]
        {
          SourceCases(n, k);
          ExchangedAt(was, i, j, 32, k);
          assert data[k] == data[..][k];
          assert i - 32 <= k < j + 32 ==> was[k] == old(data[k]);
        }
        i, j := i + 64, j - 64;
        n := n + 1;
      }
    }

    /** The whole plot of one nonce: byte i of the buffer is PlotByte(i), whatever it held before. */
    method Plot(plotId: bv64, nonce: bv64)
      requires data.Length == PLOT_TOTAL_SIZE
      modifies data
      ensures forall i | 0 <= i < PLOT_SIZE :: data[i] == PlotByte(plotId, nonce, i)
    {
      hide Shabal256, Chain, FinalHash, Seed, XorByte, PlotByte, Source, Absorb, WordsOf;
      ghost var seed := Seed(plotId, nonce);
      WriteSeed(plotId, nonce);
      var context := new Context();
      HashChain(context, seed);
      context.Update(data, 0, PLOT_TOTAL_SIZE);
      assert data[0..0 + PLOT_TOTAL_SIZE] == data[..];
      assert context.absorbed == Chain(seed, NUM_HASHES);
      var final := new byte[32](_ => 0);
      context.Close(final, 0);
      FinalHashIs(seed);
      assert final[..] == final[0..0 + 32] == FinalHash(seed);
      ghost var chain := data[..];
      assert chain == Chain(seed, NUM_HASHES);
      MaskAll(final[..]);
      ghost var masked := data[..];
      Shuffle();
      forall i | 0 <= i < PLOT_SIZE ensures data[i] == PlotByte(plotId, nonce, i) {
        var j := Source(i);
        PlotByteIs(plotId, nonce, i);
        assert data[i] == masked[j] == XorByte(chain[j], FinalHash(seed)[j % 32]);
      }
    }

    /** The seed at the end of the buffer. */
    method WriteSeed(plotId: bv64, nonce: bv64)
      requires data.Length == PLOT_TOTAL_SIZE
      modifies data
      ensures data[PLOT_SIZE..] == Seed(plotId, nonce)
    {
      hide Bytes64, HtonUll;
      Store64(PLOT_SIZE, HtonUll(plotId));
      Store64(PLOT_SIZE + 8, HtonUll(nonce));
    }
  }

  /** The sequence with n elements at i and at j exchanged. */
  ghost function Exchanged(s: seq<byte>, i: nat, j: nat, n: nat): (r: seq<byte>)
    requires i + n <= j && j + n <= |s|
    ensures |r| == |s|
  {
    s[..i] + s[j..j + n] + s[i + n..j] + s[i..i + n] + s[j + n..]
  }

  lemma ExchangedTwice(s: seq<byte>, i: nat, j: nat, n: nat)
    requires i + n + 8 <= j && j + n + 8 <= |s|
    ensures Exchanged(Exchanged(s, i, j, n), i + n, j + n, 8) == Exchanged(s, i, j, n + 8)
  {
    hide Exchanged;
    var once := Exchanged(s, i, j, n);
    var twice := Exchanged(once, i + n, j + n, 8);
    forall k | 0 <= k < |s| ensures twice[k] == Exchanged(s, i, j, n + 8)[k] {
      var from := if i + n <= k < i + n + 8 then k - i + j else if j + n <= k < j + n + 8 then k - j + i else k;
      ExchangedAt(once, i + n, j + n, 8, k);
      ExchangedAt(s, i, j, n, from);
      ExchangedAt(s, i, j, n + 8, k);
    }
  }

  lemma CappedIs(b: seq<byte>, len: nat)
    requires len == if |b| > HASH_CAP then HASH_CAP else |b|
    ensures Capped(b) == b[..len]
  {
  }

  lemma PlotByteIs(plotId: bv64, nonce: bv64, i: nat)
    requires i < PLOT_SIZE
    ensures PlotByte(plotId, nonce, i)
         == XorByte(Chain(Seed(plotId, nonce), NUM_HASHES)[Source(i)], FinalHash(Seed(plotId, nonce))[Source(i) % 32])
  {
    hide Chain, FinalHash, Seed, XorByte, Source;
  }

  lemma ExchangedAt(s: seq<byte>, i: nat, j: nat, n: nat, k: nat)
    requires i + n <= j && j + n <= |s| && k < |s|
    ensures Exchanged(s, i, j, n)[k]
         == s[if i <= k < i + n then k - i + j else if j <= k < j + n then k - j + i else k]
  {
  }

  /** In pass n of the shuffle: the two hashes exchanged, and the two it steps over. */
  lemma SourceCases(n: nat, k: nat)
    requires n < 2048 && k < PLOT_SIZE
    ensures var i, j := 64 * n + 32, PLOT_SIZE - (64 * n + 32);
            && (i <= k < i + 32 ==> Source(k) == k - i + j)
            && (j <= k < j + 32 ==> Source(k) == k - j + i)
            && (i - 32 <= k < i || j - 32 <= k < j ==> Source(k) == k)
  {
    var i, j := 64 * n + 32, PLOT_SIZE - (64 * n + 32);
    if i <= k < i + 32 {
      assert k / 32 == 2 * n + 1;
    } else if j <= k < j + 32 {
      assert k / 32 == 8191 - 2 * n;
    } else if i - 32 <= k < i {
      assert k / 32 == 2 * n;
    } else if j - 32 <= k < j {
      assert k / 32 == 8190 - 2 * n;
    }
  }

  lemma FinalHashIs(seed: seq<byte>)
    ensures FinalHash(seed) == Shabal256(Chain(seed, NUM_HASHES))
  {
  }

  lemma ChainStart(seed: seq<byte>)
    ensures Chain(seed, 0) == seed
  {
  }

  lemma ChainStep(seed: seq<byte>, n: nat)
    ensures Chain(seed, n + 1) == Shabal256(Capped(Chain(seed, n))) + Chain(seed, n)
  {
    hide Shabal256, Capped;
  }
}
