/** The writer thread's work on one hashed task: one attempt to put its scoops into the file. */
module WriterWorker {
  import opened Words
  import opened Layout
  import opened Transposition
  import opened PlotFile
  import opened Tasks

  const SCOOPS_PER_WRITE := 16384

  /** The 64 bytes of scoop s of nonce k of a block. */
  function SlotRow(flat: seq<word>, s: nat, k: nat): (row: seq<byte>)
    requires Fits(|flat|, k) && s < SCOOPS_PER_PLOT
    ensures |row| == SCOOP_BYTES
  {
    BytesOf(seq(SCOOP_WORDS, j requires 0 <= j < SCOOP_WORDS => ScoopWord(ViewOf(flat, k), s, j)))
  }

  /** Slot (s, k) of the file holds what the block, whose first nonce is off, has for it. */
  ghost predicate SlotDone(bytes: seq<byte>, size: nat, s: nat, k: nat, flat: seq<word>, off: nat)
    requires s < SCOOPS_PER_PLOT && off <= k && Fits(|flat|, k - off)
  {
    SlotHolds(bytes, size, s, k, SlotRow(flat, s, k - off))
  }

  ghost predicate BlockFits(length: nat, n: nat) {
    forall k | 0 <= k < n :: Fits(length, k)
  }

  /** Every slot of every scoop for nonces off, ..., off + n - 1 is in place. */
  ghost predicate RegionWritten(bytes: seq<byte>, size: nat, off: nat, n: nat, flat: seq<word>)
    requires BlockFits(|flat|, n)
  {
    forall s, k | 0 <= s < SCOOPS_PER_PLOT && off <= k < off + n :: SlotDone(bytes, size, s, k, flat, off)
  }

  /** Slots of other nonces are as they were. */
  ghost predicate OthersIntact(was: seq<byte>, now: seq<byte>, size: nat, off: nat, n: nat) {
    && |was| <= |now| <= Longer(|was|, size * 262144)
    && forall s, k | 0 <= s < SCOOPS_PER_PLOT && 0 <= k < size && !(off <= k < off + n) :: SameSlot(was, now, size, s, k)
  }

  /** Only slots off, ..., off + n - 1 of scoop s may have changed. */
  ghost predicate OnlyRun(was: seq<byte>, now: seq<byte>, size: nat, s: nat, off: nat, n: nat) {
    && |was| <= |now| <= Longer(|was|, size * 262144)
    && forall s2, k | 0 <= s2 < SCOOPS_PER_PLOT && 0 <= k < size && !(s2 == s && off <= k < off + n) ::
         SameSlot(was, now, size, s2, k)
  }

  lemma RowOfChunk(flat: seq<word>, s: nat, k: nat, m: nat, j: nat)
    requires s < SCOOPS_PER_PLOT && j < m && forall g | k <= g < k + m :: Fits(|flat|, g)
    ensures BytesOf(ScoopRow(flat, s, k, m))[SCOOP_BYTES * j..SCOOP_BYTES * j + SCOOP_BYTES] == SlotRow(flat, s, k + j)
  {
    hide BytesOf, ViewOf, ScoopWord, Fits;
    var r := ScoopRow(flat, s, k, m);
    BytesOfSlice(r, SCOOP_WORDS * j, SCOOP_WORDS * j + SCOOP_WORDS);
    var one := seq(SCOOP_WORDS, i requires 0 <= i < SCOOP_WORDS => ScoopWord(ViewOf(flat, k + j), s, i));
    forall i | 0 <= i < SCOOP_WORDS ensures r[SCOOP_WORDS * j + i] == one[i] {
      assert (SCOOP_WORDS * j + i) / SCOOP_WORDS == j && (SCOOP_WORDS * j + i) % SCOOP_WORDS == i;
    }
    assert r[SCOOP_WORDS * j..SCOOP_WORDS * j + SCOOP_WORDS] == one;
  }

  /** Writing a chunk at the slot of its first nonce fills the slots of all its nonces. */
  lemma ChunkFillsSlots(was: seq<byte>, now: seq<byte>, size: nat, s: nat, off: nat, k: nat, m: nat, flat: seq<word>)
    requires s < SCOOPS_PER_PLOT && off + k + m <= size && BlockFits(|flat|, k + m)
    requires Wrote(was, now, SlotAt(size, s, off + k), BytesOf(ScoopRow(flat, s, k, m)))
    ensures forall i | off + k <= i < off + k + m :: SlotDone(now, size, s, i, flat, off)
  {
    hide BytesOf, ScoopRow, SlotRow, Fits, SlotAt, Within;
    assert SlotAt(size, s, off + k) + |BytesOf(ScoopRow(flat, s, k, m))| <= |now|;
    var data := BytesOf(ScoopRow(flat, s, k, m));
    forall i | off + k <= i < off + k + m ensures SlotDone(now, size, s, i, flat, off) {
      var j := i - off - k;
      RowOfChunk(flat, s, k, m, j);
      var at := SlotAt(size, s, off + k);
      NextSlot(size, s, off + k, j);
      assert off + k + j == i;
      SubSlice(now, at, data, SCOOP_BYTES * j, SCOOP_BYTES);
    }
  }

  lemma SubSlice(b: seq<byte>, at: nat, data: seq<byte>, p: nat, len: nat)
    requires at + |data| <= |b| && b[at..at + |data|] == data && p + len <= |data|
    ensures b[at + p..at + p + len] == data[p..p + len]
  {
    var part := b[at + p..at + p + len];
    forall i | 0 <= i < |part| ensures part[i] == data[p + i] {
      assert b[at..at + |data|][p + i] == b[at + p + i];
    }
  }

  lemma RunChanged(was: seq<byte>, now: seq<byte>, size: nat, s: nat, k: nat, m: nat)
    requires s < SCOOPS_PER_PLOT && k + m <= size && Within(was, now, SlotAt(size, s, k), SCOOP_BYTES * m)
    ensures OnlyRun(was, now, size, s, k, m)
  {
    hide SameSlot, Within, SlotAt;
    assert |was| <= |now| <= Longer(|was|, size * 262144) by {
      RunInFile(size, s, k, m);
      WithinGrows(was, now, SlotAt(size, s, k), SCOOP_BYTES * m);
    }
    forall s2, k2 | 0 <= s2 < SCOOPS_PER_PLOT && 0 <= k2 < size && !(s2 == s && k <= k2 < k + m)
      ensures SameSlot(was, now, size, s2, k2)
    {
      OtherSlotsKept(was, now, size, s, k, m, s2, k2);
    }
  }

  lemma WithinGrows(was: seq<byte>, now: seq<byte>, at: nat, len: nat)
    requires Within(was, now, at, len)
    ensures |was| <= |now| <= Longer(|was|, at + len)
  {
  }

  lemma RunInFile(size: nat, s: nat, k: nat, n: nat)
    requires s < SCOOPS_PER_PLOT && k + n <= size
    ensures SlotAt(size, s, k) + SCOOP_BYTES * n <= size * 262144
  {
    RowsApart(size, s, SCOOPS_PER_PLOT);
  }

  lemma SameSlotTrans(a: seq<byte>, b: seq<byte>, c: seq<byte>, size: nat, s: nat, k: nat)
    requires SameSlot(a, b, size, s, k) && SameSlot(b, c, size, s, k)
    ensures SameSlot(a, c, size, s, k)
  {
  }

  lemma SlotKept(was: seq<byte>, now: seq<byte>, size: nat, s: nat, k: nat, row: seq<byte>)
    requires SlotHolds(was, size, s, k, row) && SameSlot(was, now, size, s, k)
    ensures SlotHolds(now, size, s, k, row)
  {
  }

  /** An attempt fails if and only if some operation on the file has failed in it. */
  ghost predicate FailsBy(was: nat, now: nat, ok: bool) {
    was <= now && (ok <==> was == now)
  }

  /** One chunk of at most 16384 nonces of one scoop. */
  method WriteChunk(file: File, block: array<word>, writeBuf: array<word>, s: nat, size: nat, off: nat, k: nat, m: nat)
    returns (ok: bool)
    requires block != writeBuf && writeBuf.Length == SCOOP_WORDS * SCOOPS_PER_WRITE
    requires s < SCOOPS_PER_PLOT && m <= SCOOPS_PER_WRITE && off + k + m <= size && BlockFits(block.Length, k + m)
    requires file.pos == SlotAt(size, s, off + k)
    modifies file, writeBuf
    ensures OnlyRun(old(file.bytes), file.bytes, size, s, off + k, m)
    ensures |file.bytes| <= Longer(|old(file.bytes)|, SlotAt(size, s, off + k + m))
    ensures FailsBy(old(file.failed), file.failed, ok) && file.isOpen == old(file.isOpen)
    ensures ok ==> file.pos == SlotAt(size, s, off + k + m)
    ensures ok ==> forall i | off + k <= i < off + k + m :: SlotDone(file.bytes, size, s, i, block[..], off)
  {
    hide BytesOf, ScoopRow, Fits, SlotAt, SlotDone, OnlyRun, Within;
    ghost var flat := block[..];
    Transpose(block, writeBuf, s, k, m);
    ghost var was := file.bytes;
    ok := file.Write(BytesOf(writeBuf[..SCOOP_WORDS * m]));
    assert block[..] == flat;
    if ok {
      WroteWithin(was, file.bytes, SlotAt(size, s, off + k), BytesOf(ScoopRow(flat, s, k, m)));
    }
    RunChanged(was, file.bytes, size, s, off + k, m);
    NextSlot(size, s, off + k, m);
    WithinGrows(was, file.bytes, SlotAt(size, s, off + k), SCOOP_BYTES * m);
    if ok {
      ChunkFillsSlots(was, file.bytes, size, s, off, k, m, flat);
    }
  }

  lemma WroteWithin(was: seq<byte>, now: seq<byte>, at: nat, data: seq<byte>)
    requires Wrote(was, now, at, data)
    ensures Within(was, now, at, |data|)
  {
  }

  lemma NextSlot(size: nat, s: nat, k: nat, m: nat)
    ensures SlotAt(size, s, k) + SCOOP_BYTES * m == SlotAt(size, s, k + m)
  {
  }

  /**
   * All chunks of one scoop. The stop flag may cut it short; it then still reports success. done tells
   * for how many nonces it has got: their slots are in place, and nothing after them has changed.
   */
  method WriteScoop(file: File, stop: StopSignal, block: array<word>, writeBuf: array<word>,
                    s: nat, size: nat, off: nat, n: nat)
    returns (ok: bool, ghost done: nat)
    requires block != writeBuf && writeBuf.Length == SCOOP_WORDS * SCOOPS_PER_WRITE
    requires s < SCOOPS_PER_PLOT && off + n <= size && BlockFits(block.Length, n)
    modifies file, stop, writeBuf
    ensures OnlyRun(old(file.bytes), file.bytes, size, s, off, n)
    ensures FailsBy(old(file.failed), file.failed, ok) && file.isOpen == old(file.isOpen) && (ok ==> file.isOpen)
    ensures old(stop.raised) ==> stop.raised
    ensures ok ==>
      && done <= n && (!stop.raised ==> done == n)
      && OnlyRun(old(file.bytes), file.bytes, size, s, off, done)
      && |file.bytes| <= Longer(|old(file.bytes)|, SlotAt(size, s, off + done))
      && forall k | off <= k < off + done :: SlotDone(file.bytes, size, s, k, block[..], off)
  {
    hide Fits, SlotDone, SlotAt, OnlyRun;
    ghost var flat, was := block[..], file.bytes;
    done := 0;
    ok := file.Seek((off + s * size) * SCOOP_BYTES);
    assert (off + s * size) * SCOOP_BYTES == SlotAt(size, s, off) by {
      SeekOffset(size, s, off);
    }
    NoRun(was, size, s, off, n);
    if !ok {
      return;
    }
    var nonces: int := n;
    var nstart: nat := 0;
    var halted := stop.Stopped();
    while !halted && nonces > 0
      invariant halted == stop.raised && (old(stop.raised) ==> stop.raised)
      invariant block[..] == flat
      invariant ok && file.failed == old(file.failed) && file.isOpen == old(file.isOpen)
      invariant if nonces > 0 then nstart + nonces == n && done == nstart else done == n
      invariant nonces > 0 ==> file.pos == SlotAt(size, s, off + nstart)
      invariant done <= n && OnlyRun(was, file.bytes, size, s, off, done)
      invariant |file.bytes| <= Longer(|was|, SlotAt(size, s, off + done))
      invariant forall k | off <= k < off + done :: SlotDone(file.bytes, size, s, k, flat, off)
      decreases nonces
    {
      var m := if nonces < SCOOPS_PER_WRITE then nonces else SCOOPS_PER_WRITE;
      ghost var before := file.bytes;
      ok := WriteChunk(file, block, writeBuf, s, size, off, nstart, m);
      ChunkInScoop(was, before, file.bytes, size, s, off, n, done, m);
      if !ok {
        return;
      }
      assert block[..] == flat;
      RunKeepsDone(before, file.bytes, size, s, off, nstart, m, flat);
      done := done + m;
      nonces, nstart := nonces - SCOOPS_PER_WRITE, nstart + SCOOPS_PER_WRITE;
      halted := stop.Stopped();
    }
    OnlyRunWiden(was, file.bytes, size, s, off, done, n);
  }

  lemma ChunkInScoop(was: seq<byte>, before: seq<byte>, now: seq<byte>, size: nat, s: nat, off: nat, n: nat,
                     done: nat, m: nat)
    requires OnlyRun(was, before, size, s, off, done) && OnlyRun(before, now, size, s, off + done, m) && done + m <= n
    requires |before| <= Longer(|was|, SlotAt(size, s, off + done))
    requires |now| <= Longer(|before|, SlotAt(size, s, off + done + m))
    ensures OnlyRun(was, now, size, s, off, done + m) && OnlyRun(was, now, size, s, off, n)
    ensures |now| <= Longer(|was|, SlotAt(size, s, off + (done + m)))
  {
    hide OnlyRun, SlotAt;
    OnlyRunWiden(was, before, size, s, off, done, done + m);
    OnlyRunTrans(was, before, now, size, s, off, done + m, off + done, m);
    OnlyRunWiden(was, now, size, s, off, done + m, n);
    NextSlot(size, s, off + done, m);
  }

  lemma NoRun(was: seq<byte>, size: nat, s: nat, off: nat, n: nat)
    ensures OnlyRun(was, was, size, s, off, 0) && OnlyRun(was, was, size, s, off, n)
  {
  }

  lemma OnlyRunWiden(was: seq<byte>, now: seq<byte>, size: nat, s: nat, off: nat, n: nat, m: nat)
    requires OnlyRun(was, now, size, s, off, n) && n <= m
    ensures OnlyRun(was, now, size, s, off, m)
  {
    hide SameSlot;
  }

  lemma SeekOffset(size: nat, s: nat, off: nat)
    ensures (off + s * size) * SCOOP_BYTES == SlotAt(size, s, off)
  {
  }

  lemma OnlyRunTrans(a: seq<byte>, b: seq<byte>, c: seq<byte>, size: nat, s: nat, off: nat, n: nat, k: nat, m: nat)
    requires OnlyRun(a, b, size, s, off, n) && OnlyRun(b, c, size, s, k, m)
    requires off <= k && k + m <= off + n
    ensures OnlyRun(a, c, size, s, off, n)
  {
    hide SameSlot;
    forall s2, k2 | 0 <= s2 < SCOOPS_PER_PLOT && 0 <= k2 < size && !(s2 == s && off <= k2 < off + n)
      ensures SameSlot(a, c, size, s2, k2)
    {
      SameSlotTrans(a, b, c, size, s2, k2);
    }
  }

  lemma RunKeepsDone(was: seq<byte>, now: seq<byte>, size: nat, s: nat, off: nat, k: nat, m: nat, flat: seq<word>)
    requires s < SCOOPS_PER_PLOT && off + k + m <= size && BlockFits(|flat|, k + m)
    requires OnlyRun(was, now, size, s, off + k, m)
    requires forall i | off <= i < off + k :: SlotDone(was, size, s, i, flat, off)
    requires forall i | off + k <= i < off + k + m :: SlotDone(now, size, s, i, flat, off)
    ensures forall i | off <= i < off + k + m :: SlotDone(now, size, s, i, flat, off)
  {
    hide SameSlot, SlotHolds, SlotRow, Fits;
    forall i | off <= i < off + k ensures SlotDone(now, size, s, i, flat, off) {
      assert SlotDone(was, size, s, i, flat, off);
      SlotKept(was, now, size, s, i, SlotRow(flat, s, i - off));
    }
  }

  // ---- one attempt -----------------------------------------------------------------------------

  /** The slot is as it was: there with the same bytes, or still not there. */
  ghost predicate Untouched(was: seq<byte>, now: seq<byte>, size: nat, s: nat, k: nat) {
    var end := SlotAt(size, s, k) + SCOOP_BYTES;
    (end <= |was| <==> end <= |now|) && SameSlot(was, now, size, s, k)
  }

  /** Where a write has got: all of scoops below scoop, and nonces below nonce of that scoop. */
  datatype Mark = Mark(scoop: nat, nonce: nat)

  predicate Before(s: nat, k: nat, cut: Mark) {
    s < cut.scoop || (s == cut.scoop && k < cut.nonce)
  }

  /**
   * The write of nonces off, ..., off + n - 1 has got to the cut: slots before it hold the rows of the
   * block, slots from it on are untouched, and slots of other nonces are intact.
   */
  ghost predicate WrittenUpTo(was: seq<byte>, now: seq<byte>, size: nat, off: nat, n: nat, flat: seq<word>, cut: Mark) {
    && OthersIntact(was, now, size, off, n)
    && BlockFits(|flat|, n)
    && forall s, k | 0 <= s < SCOOPS_PER_PLOT && off <= k < off + n ::
         if Before(s, k, cut) then SlotDone(now, size, s, k, flat, off) else Untouched(was, now, size, s, k)
  }

  /** What one attempt did to the file: slots of other nonces are intact, and when done, ours hold. */
  ghost predicate Attempted(was: seq<byte>, now: seq<byte>, size: nat, off: nat, n: nat, flat: seq<word>,
                            complete: bool)
  {
    && OthersIntact(was, now, size, off, n)
    && (complete ==> BlockFits(|flat|, n) && RegionWritten(now, size, off, n, flat))
  }

  /**
   * perform_write_plot. It also returns true when a stop interrupts it: cut tells where the stop was
   * first seen. Without a stop success means that all 4096 scoops are written. It fails only if some
   * operation on the file has failed.
   */
  method PerformWrite(file: File, stop: StopSignal, block: array<word>, writeBuf: array<word>,
                      size: nat, off: nat, n: nat)
    returns (ok: bool, ghost cut: Mark)
    requires block != writeBuf && writeBuf.Length == SCOOP_WORDS * SCOOPS_PER_WRITE
    requires off + n <= size && BlockFits(block.Length, n)
    modifies file, stop, writeBuf
    ensures old(stop.raised) ==> stop.raised
    ensures block[..] == old(block[..])
    ensures OthersIntact(old(file.bytes), file.bytes, size, off, n)
    ensures FailsBy(old(file.failed), file.failed, ok) && file.isOpen == old(file.isOpen)
    ensures ok ==> WrittenUpTo(old(file.bytes), file.bytes, size, off, n, block[..], cut)
    ensures ok && !stop.raised ==> cut == Mark(SCOOPS_PER_PLOT, off) && file.isOpen
  {
    hide Fits, BlockFits, SlotDone, OnlyRun, OthersIntact, WrittenUpTo, SlotAt;
    ghost var flat, was := block[..], file.bytes;
    NothingTouched(was, size, off, n, flat);
    var s: nat := 0;
    cut := Mark(0, off);
    var halted := stop.Stopped();
    while !halted && s < SCOOPS_PER_PLOT
      invariant s <= SCOOPS_PER_PLOT && (s > 0 ==> file.isOpen)
      invariant file.failed == old(file.failed) && file.isOpen == old(file.isOpen)
      invariant halted == stop.raised && (old(stop.raised) ==> stop.raised)
      invariant block[..] == flat
      invariant !halted ==> cut == Mark(s, off)
      invariant WrittenUpTo(was, file.bytes, size, off, n, flat, cut)
      invariant |file.bytes| <= Longer(|was|, SlotAt(size, cut.scoop, cut.nonce))
      decreases SCOOPS_PER_PLOT - s
    {
      ghost var before := file.bytes;
      ghost var done: nat;
      ok, done := WriteScoop(file, stop, block, writeBuf, s, size, off, n);
      WrittenIntact(was, before, size, off, n, flat, cut);
      RunWithinRegion(was, before, file.bytes, size, s, off, n);
      if !ok {
        return;
      }
      assert block[..] == flat;
      CutMoves(was, before, file.bytes, size, s, off, n, done, flat);
      cut := if done == n then Mark(s + 1, off) else Mark(s, off + done);
      s := s + 1;
      halted := stop.Stopped();
    }
    WrittenIntact(was, file.bytes, size, off, n, flat, cut);
    return true, cut;
  }

  lemma WrittenIntact(was: seq<byte>, now: seq<byte>, size: nat, off: nat, n: nat, flat: seq<word>, cut: Mark)
    requires WrittenUpTo(was, now, size, off, n, flat, cut)
    ensures OthersIntact(was, now, size, off, n)
  {
  }

  /** A scoop that got to its nonce done moves the cut there. */
  lemma CutMoves(was: seq<byte>, before: seq<byte>, now: seq<byte>, size: nat, s: nat, off: nat, n: nat, done: nat,
                 flat: seq<word>)
    requires s < SCOOPS_PER_PLOT && off + n <= size && done <= n
    requires WrittenUpTo(was, before, size, off, n, flat, Mark(s, off))
    requires |before| <= Longer(|was|, SlotAt(size, s, off))
    requires OnlyRun(before, now, size, s, off, done) && OnlyRun(before, now, size, s, off, n)
    requires |now| <= Longer(|before|, SlotAt(size, s, off + done))
    requires forall k | off <= k < off + done :: SlotDone(now, size, s, k, flat, off)
    ensures WrittenUpTo(was, now, size, off, n, flat, if done == n then Mark(s + 1, off) else Mark(s, off + done))
    ensures |now| <= Longer(|was|, SlotAt(size, s, off + done))
    ensures done == n ==> |now| <= Longer(|was|, SlotAt(size, s + 1, off))
  {
    hide Fits, SlotDone, SlotAt, OnlyRun, OthersIntact, Untouched, SlotRow;
    RunWithinRegion(was, before, now, size, s, off, n);
    SlotsRise(size, s, off, s, off + done);
    NextScoop(size, s, off, n);
    forall t, k | 0 <= t < SCOOPS_PER_PLOT && off <= k < off + n
      ensures if t < s || (t == s && k < off + done) then SlotDone(now, size, t, k, flat, off)
              else Untouched(was, now, size, t, k)
    {
      if t < s {
        assert Before(t, k, Mark(s, off));
        DoneOutsideRun(before, now, size, s, off, done, t, k, flat);
      } else if t > s || k >= off + done {
        assert !Before(t, k, Mark(s, off));
        SlotsRise(size, s, off + done, t, k);
        UntouchedFurther(was, before, now, size, s, off, done, t, k);
      }
    }
  }

  /** Later slots, scoop by scoop and then nonce by nonce, have higher offsets. */
  lemma SlotsRise(size: nat, s: nat, k: nat, t: nat, j: nat)
    requires (s == t && k <= j) || (s < t && k <= size)
    ensures SlotAt(size, s, k) <= SlotAt(size, t, j)
  {
    if s < t {
      RowsApart(size, s, t);
    }
  }

  lemma NextScoop(size: nat, s: nat, off: nat, n: nat)
    requires off + n <= size
    ensures SlotAt(size, s, off + n) <= SlotAt(size, s + 1, off)
  {
    SlotsRise(size, s, off + n, s + 1, off);
  }

  lemma DoneOutsideRun(was: seq<byte>, now: seq<byte>, size: nat, s: nat, off: nat, n: nat, t: nat, k: nat,
                       flat: seq<word>)
    requires OnlyRun(was, now, size, s, off, n) && t < SCOOPS_PER_PLOT && t != s && off <= k < size
    requires Fits(|flat|, k - off) && SlotDone(was, size, t, k, flat, off)
    ensures SlotDone(now, size, t, k, flat, off)
  {
    hide SameSlot, SlotHolds, SlotRow, Fits;
    SlotKept(was, now, size, t, k, SlotRow(flat, t, k - off));
  }

  lemma UntouchedFurther(was: seq<byte>, before: seq<byte>, now: seq<byte>, size: nat, s: nat, off: nat, n: nat,
                         t: nat, k: nat)
    requires Untouched(was, before, size, t, k) && OnlyRun(before, now, size, s, off, n)
    requires t < SCOOPS_PER_PLOT && k < size && !(t == s && off <= k < off + n)
    requires |now| <= Longer(|before|, SlotAt(size, s, off + n)) && SlotAt(size, s, off + n) <= SlotAt(size, t, k)
    ensures Untouched(was, now, size, t, k)
  {
    assert SameSlot(before, now, size, t, k);
    hide SlotAt, OnlyRun;
  }

  lemma NothingTouched(was: seq<byte>, size: nat, off: nat, n: nat, flat: seq<word>)
    requires BlockFits(|flat|, n)
    ensures WrittenUpTo(was, was, size, off, n, flat, Mark(0, off))
  {
    hide SlotDone, Fits, SlotAt;
  }

  lemma RunWithinRegion(a: seq<byte>, b: seq<byte>, c: seq<byte>, size: nat, s: nat, off: nat, n: nat)
    requires OthersIntact(a, b, size, off, n) && OnlyRun(b, c, size, s, off, n)
    ensures OthersIntact(a, c, size, off, n)
  {
    hide SameSlot;
    forall s2, k2 | 0 <= s2 < SCOOPS_PER_PLOT && 0 <= k2 < size && !(off <= k2 < off + n)
      ensures SameSlot(a, c, size, s2, k2)
    {
      SameSlotTrans(a, b, c, size, s2, k2);
    }
  }

  /** Growing a file touches none of its slots. */
  lemma GrownIntact(was: seq<byte>, mid: seq<byte>, now: seq<byte>, size: nat, off: nat, n: nat)
    requires was <= mid && |mid| <= Longer(|was|, size * 262144)
    requires OthersIntact(mid, now, size, off, n)
    ensures OthersIntact(was, now, size, off, n)
  {
    hide SameSlot;
    forall s, k | 0 <= s < SCOOPS_PER_PLOT && 0 <= k < size && !(off <= k < off + n)
      ensures SameSlot(was, now, size, s, k)
    {
      PrefixSameSlot(was, mid, size, s, k);
      SameSlotTrans(was, mid, now, size, s, k);
    }
  }

  lemma PrefixSameSlot(was: seq<byte>, mid: seq<byte>, size: nat, s: nat, k: nat)
    requires was <= mid
    ensures SameSlot(was, mid, size, s, k)
  {
  }

  /** With the last scoop the whole region is written. */
  lemma CutAtEnd(was: seq<byte>, now: seq<byte>, size: nat, off: nat, n: nat, flat: seq<word>)
    requires WrittenUpTo(was, now, size, off, n, flat, Mark(SCOOPS_PER_PLOT, off))
    ensures BlockFits(|flat|, n) && RegionWritten(now, size, off, n, flat)
  {
    hide SlotDone, Untouched, OthersIntact, Fits;
    forall s, k | 0 <= s < SCOOPS_PER_PLOT && off <= k < off + n ensures SlotDone(now, size, s, k, flat, off) {
      assert Before(s, k, Mark(SCOOPS_PER_PLOT, off));
    }
  }

  /**
   * One pass of the retry loop of run: opens and preallocates a closed file, tries to write the
   * task, and closes the file on failure. On success it books the nonces, and renames the file when
   * that completes it. ready is the file as it was when the writing began. Without a failed operation
   * on the file the attempt succeeds; with one it fails, unless a stop comes after a failed opening.
   */
  method TryWrite(file: File, stop: StopSignal, task: WriterTask, block: array<word>, writeBuf: array<word>,
                  sn: nat, n: nat)
    returns (ok: bool, renamed: bool, ghost ready: seq<byte>, ghost cut: Mark)
    requires block != writeBuf && writeBuf.Length == SCOOP_WORDS * SCOOPS_PER_WRITE
    requires task.initSn <= sn && sn - task.initSn + n <= task.initNonces && BlockFits(block.Length, n)
    modifies file, stop, task, writeBuf
    ensures old(stop.raised) ==> stop.raised
    ensures block[..] == old(block[..])
    ensures Attempted(old(file.bytes), ready, task.initNonces, sn - task.initSn, n, block[..], false)
    ensures Attempted(old(file.bytes), file.bytes, task.initNonces, sn - task.initSn, n, block[..], ok && !stop.raised)
    ensures ok ==> WrittenUpTo(ready, file.bytes, task.initNonces, sn - task.initSn, n, block[..], cut)
    ensures !ok ==> file.failed > old(file.failed)
    ensures ok && !stop.raised ==> file.failed == old(file.failed)
    ensures ok ==> (task.Abs(), renamed) == Submit(old(task.Abs()), n)
    ensures !ok ==> task.Abs() == old(task.Abs()) && !renamed && !file.isOpen
    ensures renamed ==> !file.isOpen
  {
    hide Fits, SlotDone, OthersIntact, RegionWritten, WrittenUpTo;
    renamed := false;
    ghost var was := file.bytes;
    if !file.isOpen {
      file.Open(task.initNonces * 262144);
    }
    ready := file.bytes;
    NothingElse(ready, task.initNonces, sn - task.initSn, n);
    GrownIntact(was, ready, ready, task.initNonces, sn - task.initSn, n);
    ok, cut := PerformWrite(file, stop, block, writeBuf, task.initNonces, sn - task.initSn, n);
    GrownIntact(was, ready, file.bytes, task.initNonces, sn - task.initSn, n);
    if !ok {
      file.Close();
    } else {
      if !stop.raised {
        CutAtEnd(ready, file.bytes, task.initNonces, sn - task.initSn, n, block[..]);
      }
      renamed := task.SubmitNonces(n);
      if renamed {
        file.Close();
      }
    }
  }

  lemma NothingElse(was: seq<byte>, size: nat, off: nat, n: nat)
    ensures OthersIntact(was, was, size, off, n)
  {
  }
}
