/** The hasher thread's work on one task: filling a block in chunks of the global work size. */
module Hasher {
  import opened Words
  import opened Layout
  import opened CpuPlotter
  import opened Kernel
  import opened WordPlot
  import opened GpuPlotter
  import opened Transposition
  import opened WriterWorker

  /** The first n nonces of the block are the finished plots of start, start + 1, ... */
  ghost predicate BlockHolds(flat: seq<word>, plotId: bv64, start: bv64, n: nat) {
    forall k | 0 <= k < n :: Finished(flat, k, ItemSeed(HtonUll(plotId), start, k))
  }

  // ---- gluing chunks -------------------------------------------------------------------

  /** A chunk that starts at a multiple of 16 is addressed like a block of its own. */
  lemma AddressShift(q: nat, g: nat, hash: nat, word: nat)
    ensures Address(16 * q + g, hash, word) == 16 * q * NONCE_SIZE_WORDS + Address(g, hash, word)
  {
    Quotient16(16 * q + g, q + g / 16, g % 16);
  }

  lemma ViewShift(host: seq<word>, chunk: seq<word>, q: nat, g: nat)
    requires Fits(|chunk|, g) && 16 * q + g < ADDRESSABLE
    requires 16 * q * NONCE_SIZE_WORDS + |chunk| <= |host|
    requires host[16 * q * NONCE_SIZE_WORDS..16 * q * NONCE_SIZE_WORDS + |chunk|] == chunk
    ensures Fits(|host|, 16 * q + g) && ViewOf(host, 16 * q + g) == ViewOf(chunk, g)
  {
    hide Address;
    Quotient16(16 * q + g, q + g / 16, g % 16);
    var base := 16 * q * NONCE_SIZE_WORDS;
    forall k | 0 <= k < NONCE_SIZE_WORDS ensures ViewWord(host, 16 * q + g, k) == ViewWord(chunk, g, k) {
      AddressShift(q, g, k / 8, k % 8);
      AddressDecodes(|chunk|, g, k / 8, k % 8);
      assert host[base..base + |chunk|][Address(g, k / 8, k % 8)] == host[base + Address(g, k / 8, k % 8)];
    }
  }

  /** The views of earlier nonces lie wholly before the chunk. */
  lemma ViewBefore(was: seq<word>, now: seq<word>, q: nat, k: nat)
    requires k < 16 * q && k < ADDRESSABLE && 16 * q * NONCE_SIZE_WORDS <= |was| == |now|
    requires now[..16 * q * NONCE_SIZE_WORDS] == was[..16 * q * NONCE_SIZE_WORDS]
    ensures Fits(|was|, k) && ViewOf(now, k) == ViewOf(was, k)
  {
    hide Address;
    var base := 16 * q * NONCE_SIZE_WORDS;
    assert k / 16 < q;
    assert Fits(base, k);
    forall i | 0 <= i < NONCE_SIZE_WORDS ensures ViewWord(now, k, i) == ViewWord(was, k, i) {
      AddressDecodes(base, k, i / 8, i % 8);
      assert now[..base][Address(k, i / 8, i % 8)] == was[..base][Address(k, i / 8, i % 8)];
    }
  }

  lemma SeedShift(idBe: bv64, start: bv64, done: nat, g: nat)
    ensures ItemSeed(idBe, NonceAt(start, done), g) == ItemSeed(idBe, start, done + g)
  {
    NonceAtSum(start, done, g);
  }

  /** One more chunk extends the block. */
  lemma ChunkExtends(was: seq<word>, now: seq<word>, chunk: seq<word>, plotId: bv64, start: bv64, q: nat, m: nat)
    requires |was| == |now| && 16 * q * NONCE_SIZE_WORDS + |chunk| <= |now| && 16 * q + m <= ADDRESSABLE
    requires BlockHolds(was, plotId, start, 16 * q)
    requires forall g | 0 <= g < m ::
               Finished(chunk, g, ItemSeed(HtonUll(plotId), NonceAt(start, 16 * q), g))
    requires now[..16 * q * NONCE_SIZE_WORDS] == was[..16 * q * NONCE_SIZE_WORDS]
    requires now[16 * q * NONCE_SIZE_WORDS..16 * q * NONCE_SIZE_WORDS + |chunk|] == chunk
    ensures BlockHolds(now, plotId, start, 16 * q + m)
  {
    hide ViewOf, MaskedWord, ItemSeed, HtonUll, NonceAt;
    forall k | 0 <= k < 16 * q + m ensures Finished(now, k, ItemSeed(HtonUll(plotId), start, k)) {
      if k < 16 * q {
        ViewBefore(was, now, q, k);
        assert Finished(was, k, ItemSeed(HtonUll(plotId), start, k));
      } else {
        var g := k - 16 * q;
        assert Finished(chunk, g, ItemSeed(HtonUll(plotId), NonceAt(start, 16 * q), g));
        ViewShift(now, chunk, q, g);
        SeedShift(HtonUll(plotId), start, 16 * q, g);
      }
    }
  }

  /** A chunk that still has nonces to do leaves room for a whole one. */
  lemma RoomForChunk(w: nat, c: nat, parts: nat)
    requires c * w < parts * w
    ensures c * w + w <= parts * w
  {
    if c < parts {
      AtLeast(parts, c + 1, w);
      NextChunk(c, w);
    } else {
      AtLeast(c, parts, w);
    }
  }

  lemma InSixteens(parts: nat, gws: nat, w: nat)
    requires gws == 16 * w
    ensures parts * gws == 16 * (parts * w)
    ensures parts * gws * NONCE_SIZE_WORDS == 1048576 * (parts * w)
  {
  }

  lemma NextChunk(c: nat, w: nat)
    ensures (c + 1) * w == c * w + w
  {
  }

  /** One pass of the chunk loop, at the given number of sixteens into the block. */
  method HashChunk(dev: Device, block: array<word>, plotId: bv64, ghost start: bv64, startNonce: bv64, m: nat,
                   at: nat, ghost s: nat)
    requires dev.Valid() && GoodStep(dev.step)
    requires block != dev.buf && m <= dev.gws && 16 * s + m <= ADDRESSABLE
    requires at == 1048576 * s && at + dev.buf.Length <= block.Length
    requires startNonce == NonceAt(start, 16 * s)
    requires BlockHolds(block[..], plotId, start, 16 * s)
    modifies block, dev.buf
    ensures BlockHolds(block[..], plotId, start, 16 * s + m)
  {
    hide BlockHolds, Finished, ItemSeed, HtonUll, NonceAt, OwnerOf;
    ghost var was := block[..];
    dev.Plot(plotId, startNonce, m, block, at);
    ghost var now := block[..];
    assert now[..at] == was[..at];
    assert now[at..at + |dev.buf[..]|] == dev.buf[..];
    ChunkExtends(was, now, dev.buf[..], plotId, start, s, m);
  }

  /**
   * The chunk loop of run. The block is parts work sizes long; every read-back is a whole device
   * buffer, and stays inside the block even for a short last chunk. host_buff counts bytes, and its
   * advance is a 32-bit product.
   */
  method FillBlock(dev: Device, block: array<word>, plotId: bv64, start: bv64, n: nat, parts: nat)
    requires dev.Valid() && dev.gws > 0 && GoodStep(dev.step)
    requires block != dev.buf && block.Length == parts * dev.gws * NONCE_SIZE_WORDS
    requires n <= parts * dev.gws && BlockBounds(dev.gws, parts)
    modifies block, dev.buf
    ensures BlockHolds(block[..], plotId, start, n)
  {
    hide BlockHolds, Finished, ItemSeed, HtonUll, NonceAt;
    var total: nat := n;
    var startNonce := start;
    var hostBuff: int := 0;
    ghost var w := dev.gws / 16;
    ghost var c: nat := 0;
    ghost var done: nat := 0;
    InSixteens(parts, dev.gws, w);
    HoldsNothing(block[..], plotId, start);
    while total > 0
      invariant done + total == n
      invariant total > 0 ==> done == 16 * (c * w) && hostBuff == 4 * (1048576 * (c * w))
      invariant startNonce == NonceAt(start, done)
      invariant BlockHolds(block[..], plotId, start, done)
    {
      var nonces := Min(total, dev.gws);
      RoomForChunk(w, c, parts);
      HashChunk(dev, block, plotId, start, startNonce, nonces, hostBuff / 4, c * w);
      NonceAtSum(start, done, nonces);
      NextChunk(c, w);
      if total > nonces {
        SecondChunkIsExact(dev.gws, parts, n, w);
      }
      total, startNonce, hostBuff := total - nonces, NonceAt(startNonce, nonces), hostBuff + Int32(nonces * PLOT_SIZE);
      c, done := c + 1, done + nonces;
    }
  }

  lemma HoldsNothing(flat: seq<word>, plotId: bv64, start: bv64)
    ensures BlockHolds(flat, plotId, start, 0) && NonceAt(start, 0) == start
  {
  }

  // ---- 32-bit offsets and the default buffer size -------------------------------------

  /** The buffer size in work sizes: the option's low three bits, or a default by work size. */
  function BufferSize(option: nat, gws: nat): (b: nat)
    ensures 1 <= b <= 7
  {
    if option % 8 != 0 then option % 8 else if gws >= 8192 then 1 else 2
  }

  /**
   * Of the option the lowest three bits count. The default is two work sizes to a task, exactly if blocks
   * of two are addressed rightly, and otherwise one.
   */
  lemma BufferSizeIs(gws: nat, high: nat, option: nat)
    requires gws > 0 && option < 8
    ensures option > 0 ==> BufferSize(8 * high + option, gws) == option
    ensures option == 0 ==> BufferSize(8 * high + option, gws) == if BlockBounds(gws, 2) then 2 else 1
  {
    assert (8 * high + option) % 8 == option;
  }

  lemma SecondChunkIsExact(gws: nat, parts: nat, n: nat, w: nat)
    requires gws == 16 * w && gws < n <= parts * gws && (parts == 1 || gws < 8192)
    ensures Int32(gws * PLOT_SIZE) == gws * PLOT_SIZE == 4 * (1048576 * w)
  {
    if parts == 1 {
      assert false;
    }
  }

  /** For a task of n nonces: host_buff reaches a second chunk where it should, and all words are found. */
  ghost predicate TaskExact(gws: nat, n: nat) {
    && (n > gws ==> Int32(gws * PLOT_SIZE) == gws * PLOT_SIZE)
    && forall k, hash, word | 0 <= k < n && 0 <= hash < 8192 && 0 <= word < 8 ::
         Address32(k, hash, word) == Address(k, hash, word)
  }

  /** The bounds within which blocks of parts work sizes work in 32-bit arithmetic. */
  predicate BlockBounds(gws: nat, parts: nat) {
    parts * gws <= ADDRESSABLE && (parts == 1 || gws < 8192)
  }

  /** The bounds are exact: within them every task of up to parts work sizes is right, beyond them not. */
  lemma BoundsAreExact(gws: nat, parts: nat)
    requires gws > 0 && parts > 0
    ensures (forall n: nat | n <= parts * gws :: TaskExact(gws, n)) <==> BlockBounds(gws, parts)
  {
    hide Address, Address32;
    if BlockBounds(gws, parts) {
      forall n: nat | n <= parts * gws ensures TaskExact(gws, n) {
        forall k, hash, word | 0 <= k < n && 0 <= hash < 8192 && 0 <= word < 8
          ensures Address32(k, hash, word) == Address(k, hash, word)
        {
          SmallAddress(k, hash, word);
        }
      }
    } else if parts * gws > ADDRESSABLE {
      AddressFitsInt32(ADDRESSABLE);
      assert !TaskExact(gws, parts * gws);
    } else {
      AtLeast(parts, 2, gws);
      assert !TaskExact(gws, parts * gws);
    }
  }

  /** With work size 8192 and two parts, the second chunk would be read back 2^31 bytes before the block. */
  lemma FirstWrongAdvance()
    ensures Int32(8192 * PLOT_SIZE) == -0x8000_0000
    ensures !BlockBounds(8192, 2) && BlockBounds(8192, 1) && BlockBounds(8191, 2)
  {
  }

  /** The default number of parts keeps host_buff right for every work size that can be addressed. */
  lemma DefaultPartsFit(gws: nat)
    requires 0 < gws <= ADDRESSABLE
    ensures BlockBounds(gws, BufferSize(0, gws))
  {
  }

  // ---- what the writer will read -------------------------------------------------------

  /** The 64 bytes of scoop s in the reference plot of a nonce. */
  function ReferenceRow(plotId: bv64, nonce: bv64, s: nat): (row: seq<byte>)
    requires s < SCOOPS_PER_PLOT
    ensures |row| == 64
  {
    seq(64, b requires 0 <= b < 64 => ScoopByte(plotId, nonce, s, b))
  }

  /** The same row without the final mask. */
  function UnmaskedRow(plotId: bv64, nonce: bv64, s: nat): (row: seq<byte>)
    requires s < SCOOPS_PER_PLOT
    ensures |row| == 64
  {
    seq(64, b requires 0 <= b < 64 => UnmaskedByte(plotId, nonce, s, b))
  }

  /** The row that a device shows, by whether its launches mask. */
  function ShownRow(plotId: bv64, nonce: bv64, s: nat, masked: bool): (row: seq<byte>)
    requires s < SCOOPS_PER_PLOT
    ensures |row| == 64
  {
    if masked then ReferenceRow(plotId, nonce, s) else UnmaskedRow(plotId, nonce, s)
  }

  lemma RowsAgree(plotId: bv64, nonce: bv64, s: nat)
    requires s < SCOOPS_PER_PLOT
    ensures ReferenceRow(plotId, nonce, s) == UnmaskedRow(plotId, nonce, s) <==> ZeroFinal(plotId, nonce)
  {
    hide ScoopByte, UnmaskedByte, ZeroFinal;
    MaskShows(plotId, nonce, s);
    var x, y := ReferenceRow(plotId, nonce, s), UnmaskedRow(plotId, nonce, s);
    if x == y {
      forall b | 0 <= b < 64 ensures ScoopByte(plotId, nonce, s, b) == UnmaskedByte(plotId, nonce, s, b) {
        assert x[b] == y[b];
      }
    }
  }

  lemma RowByte(flat: seq<word>, k: nat, s: nat, b: nat)
    requires Fits(|flat|, k) && s < SCOOPS_PER_PLOT && b < 64
    ensures SlotRow(flat, s, k)[b] == ByteOf(ScoopWord(ViewOf(flat, k), s, b / 4), b % 4)
  {
    hide ViewOf, ScoopWord, ByteOf;
    var words := seq(SCOOP_WORDS, j requires 0 <= j < SCOOP_WORDS => ScoopWord(ViewOf(flat, k), s, j));
    BytesOfAt(words, b / 4, b % 4);
    assert 4 * (b / 4) + b % 4 == b;
  }

  lemma MaskedRowShown(flat: seq<word>, plotId: bv64, start: bv64, k: nat, s: nat)
    requires Finished(flat, k, ItemSeed(HtonUll(plotId), start, k)) && s < SCOOPS_PER_PLOT
    ensures SlotRow(flat, s, k) == ReferenceRow(plotId, NonceAt(start, k), s)
  {
    hide SlotRow, ViewOf, ScoopWord, ScoopByte, ItemSeed, HtonUll, NonceAt, MaskedWord, ByteOf;
    forall b | 0 <= b < 64 ensures SlotRow(flat, s, k)[b] == ReferenceRow(plotId, NonceAt(start, k), s)[b] {
      RowByte(flat, k, s, b);
      GpuEqualsCpu(flat, k, plotId, start, s, b / 4, b % 4);
      InRow(b);
    }
  }

  lemma UnmaskedRowShown(flat: seq<word>, plotId: bv64, start: bv64, k: nat, s: nat)
    requires Grown(flat, k, 0, ItemSeed(HtonUll(plotId), start, k)) && s < SCOOPS_PER_PLOT
    ensures SlotRow(flat, s, k) == UnmaskedRow(plotId, NonceAt(start, k), s)
  {
    hide SlotRow, ViewOf, ScoopWord, UnmaskedByte, ItemSeed, HtonUll, NonceAt, Grown, WordChain, ByteOf, Tail;
    GrownTail(flat, k, 0, ItemSeed(HtonUll(plotId), start, k));
    forall b | 0 <= b < 64 ensures SlotRow(flat, s, k)[b] == UnmaskedRow(plotId, NonceAt(start, k), s)[b] {
      RowByte(flat, k, s, b);
      UnmaskedEqualsCpu(flat, k, plotId, start, s, b / 4, b % 4);
      InRow(b);
    }
  }

  lemma InRow(b: nat)
    ensures 4 * (b / 4) + b % 4 == b
  {
  }

  /** Each row read from the block of a nonce that plot has done is the row of that nonce on the CPU. */
  lemma RowIsShown(flat: seq<word>, plotId: bv64, start: bv64, k: nat, s: nat, masked: bool)
    requires Plotted(flat, k, ItemSeed(HtonUll(plotId), start, k), masked) && s < SCOOPS_PER_PLOT
    ensures Fits(|flat|, k) && SlotRow(flat, s, k) == ShownRow(plotId, NonceAt(start, k), s, masked)
  {
    assert Fits(|flat|, k);
    hide SlotRow, ReferenceRow, UnmaskedRow, ItemSeed, HtonUll, NonceAt, Finished, Grown, Fits;
    if masked {
      MaskedRowShown(flat, plotId, start, k, s);
    } else {
      UnmaskedRowShown(flat, plotId, start, k, s);
    }
  }

  /** Each row of a filled block is the reference row of its nonce. */
  lemma RowIsReference(flat: seq<word>, plotId: bv64, start: bv64, n: nat, k: nat, s: nat)
    requires BlockHolds(flat, plotId, start, n) && k < n && s < SCOOPS_PER_PLOT
    ensures Fits(|flat|, k) && SlotRow(flat, s, k) == ReferenceRow(plotId, NonceAt(start, k), s)
  {
    assert Finished(flat, k, ItemSeed(HtonUll(plotId), start, k));
    MaskedRowShown(flat, plotId, start, k, s);
    hide SlotRow, ReferenceRow, ItemSeed, HtonUll, NonceAt, ViewOf, MaskedWord;
  }
}
