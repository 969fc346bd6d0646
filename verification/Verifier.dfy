/** Checking a finished plot file against freshly computed plots, window by window. */
module Verifier {
  import opened Words
  import opened Layout
  import opened CpuPlotter
  import opened WordPlot
  import opened Kernel
  import opened GpuPlotter
  import opened Transposition
  import opened PlotFile
  import opened Tasks
  import opened Hasher
  import opened WriterWorker
  import opened PipelineContents
  import opened EndToEnd

  // ---- which nonces are looked at -----------------------------------------------------------

  /** The window that the loop looks at in iteration i: it ends i nonces before the end of the file. */
  function WindowAt(nonces: nat, gws: nat, i: nat): (w: Range)
    requires i < nonces
  {
    var rest := nonces - i;
    Range(if rest > gws then rest - gws else 0, if rest < gws then rest else gws)
  }

  function WindowsFrom(nonces: nat, gws: nat, step: nat, i: nat): (ws: seq<Range>)
    requires gws > 0
    decreases nonces + gws + step - i
  {
    if i >= nonces then [] else [WindowAt(nonces, gws, i)] + WindowsFrom(nonces, gws, step, i + gws + step)
  }

  /**
   * The windows lie in the file and run from its end to its start; between one and the next lie
   * exactly step nonces, and fewer than step + 1 before the last.
   */
  lemma {:induction false} WindowsAreSpaced(nonces: nat, gws: nat, step: nat, i: nat)
    requires gws > 0 && i < nonces
    ensures var ws := WindowsFrom(nonces, gws, step, i);
            && ws != [] && ws[0].sn + ws[0].n == nonces - i
            && (forall j | 0 <= j < |ws| :: 0 < ws[j].n <= gws && ws[j].sn + ws[j].n <= nonces)
            && (forall j | 0 <= j < |ws| - 1 :: ws[j + 1].sn + ws[j + 1].n + step == ws[j].sn)
            && ws[|ws| - 1].sn <= step
    decreases nonces - i
  {
    var ws, next := WindowsFrom(nonces, gws, step, i), i + gws + step;
    if next < nonces {
      WindowsAreSpaced(nonces, gws, step, next);
      assert ws[1..] == WindowsFrom(nonces, gws, step, next);
      forall j | 0 <= j < |ws| - 1 ensures ws[j + 1].sn + ws[j + 1].n + step == ws[j].sn {
        assert ws[j + 1] == ws[1..][j];
        assert j > 0 ==> ws[j] == ws[1..][j - 1];
      }
      forall j | 0 < j < |ws| ensures 0 < ws[j].n <= gws && ws[j].sn + ws[j].n <= nonces {
        assert ws[j] == ws[1..][j - 1];
      }
    } else {
      assert WindowsFrom(nonces, gws, step, next) == [];
    }
  }

  /** Hence no two windows overlap. */
  lemma {:induction false} WindowsDisjoint(nonces: nat, gws: nat, step: nat, i: nat, j: nat, m: nat)
    requires gws > 0 && i < nonces && j < m < |WindowsFrom(nonces, gws, step, i)|
    ensures var ws := WindowsFrom(nonces, gws, step, i); ws[m].sn + ws[m].n + step <= ws[j].sn
    decreases m - j
  {
    hide WindowsFrom;
    WindowsAreSpaced(nonces, gws, step, i);
    if j + 1 < m {
      WindowsDisjoint(nonces, gws, step, i, j + 1, m);
    }
  }

  /** Some window of those from iteration i on looks at nonce k. */
  ghost predicate Looked(nonces: nat, gws: nat, step: nat, i: nat, k: nat)
    requires gws > 0
  {
    exists j | 0 <= j < |WindowsFrom(nonces, gws, step, i)| ::
      var w := WindowsFrom(nonces, gws, step, i)[j]; w.sn <= k < w.sn + w.n
  }

  /** With step 0 every nonce is looked at. */
  lemma {:induction false} StepZeroLooksAtAll(nonces: nat, gws: nat, i: nat, k: nat)
    requires gws > 0 && i < nonces && k < nonces - i
    ensures Looked(nonces, gws, 0, i, k)
    decreases nonces - i
  {
    var ws := WindowsFrom(nonces, gws, 0, i);
    if k >= ws[0].sn {
      assert ws[0].sn <= k < ws[0].sn + ws[0].n;
    } else {
      StepZeroLooksAtAll(nonces, gws, i + gws, k);
      LookedLater(nonces, gws, 0, i, k);
    }
  }

  lemma LookedLater(nonces: nat, gws: nat, step: nat, i: nat, k: nat)
    requires gws > 0 && i < nonces
    ensures Looked(nonces, gws, step, i, k) <==>
      WindowAt(nonces, gws, i).sn <= k < WindowAt(nonces, gws, i).sn + WindowAt(nonces, gws, i).n
      || Looked(nonces, gws, step, i + gws + step, k)
  {
    var ws, later := WindowsFrom(nonces, gws, step, i), WindowsFrom(nonces, gws, step, i + gws + step);
    hide WindowsFrom, WindowAt;
    assert ws == [WindowAt(nonces, gws, i)] + later && ws[0] == WindowAt(nonces, gws, i) by {
      FirstWindow(nonces, gws, step, i);
    }
    if Looked(nonces, gws, step, i + gws + step, k) {
      var j :| 0 <= j < |later| && later[j].sn <= k < later[j].sn + later[j].n;
      assert ws[j + 1] == later[j];
    }
    if Looked(nonces, gws, step, i, k) {
      var j :| 0 <= j < |ws| && ws[j].sn <= k < ws[j].sn + ws[j].n;
      if j > 0 {
        assert ws[j] == later[j - 1];
        assert later[j - 1].sn <= k < later[j - 1].sn + later[j - 1].n;
      }
    }
  }

  lemma FirstWindow(nonces: nat, gws: nat, step: nat, i: nat)
    requires gws > 0 && i < nonces
    ensures WindowsFrom(nonces, gws, step, i)
         == [WindowAt(nonces, gws, i)] + WindowsFrom(nonces, gws, step, i + gws + step)
  {
  }

  // ---- the header -----------------------------------------------------------------------------

  /**
   * The check of the file size. The middle test is written nonces & 7 != nonces, in which the
   * comparison binds tighter.
   */
  predicate HeaderOk(total: nat, length: nat) {
    var nonces := length / PLOT_SIZE;
    var flag := if 7 != nonces then 1 else 0;
    && nonces == total
    && !(flag == 1 && nonces % 2 == 1)
    && nonces * PLOT_SIZE == length
  }

  /** So it accepts even counts, not just multiples of 8, and of the odd ones exactly 7. */
  lemma HeaderAccepts(total: nat, length: nat)
    ensures HeaderOk(total, length) <==> length == total * PLOT_SIZE && (total % 2 == 0 || total == 7)
  {
  }

  // ---- the comparison ----------------------------------------------------------------------------

  /** Scoop s of nonce k of the file is what the device shows for it, with or without the final mask. */
  ghost predicate SlotShows(plotId: bv64, file: Range, bytes: seq<byte>, s: nat, k: nat, masked: bool)
    requires s < SCOOPS_PER_PLOT
  {
    SlotHolds(bytes, file.n, s, k, ShownRow(plotId, U64(file.sn + k), s, masked))
  }

  ghost predicate WindowShows(plotId: bv64, file: Range, bytes: seq<byte>, w: Range, masked: bool) {
    forall s, k | 0 <= s < SCOOPS_PER_PLOT && w.sn <= k < w.sn + w.n :: SlotShows(plotId, file, bytes, s, k, masked)
  }

  /** The block shows the first n nonces from start on. */
  ghost predicate BlockShows(flat: seq<word>, plotId: bv64, start: bv64, n: nat, masked: bool) {
    forall k | 0 <= k < n :: Plotted(flat, k, ItemSeed(HtonUll(plotId), start, k), masked)
  }

  lemma ShownFits(flat: seq<word>, plotId: bv64, start: bv64, n: nat, masked: bool)
    requires BlockShows(flat, plotId, start, n, masked)
    ensures BlockFits(|flat|, n)
  {
    hide Fits, ItemSeed, HtonUll, ViewOf, WordChain, MaskedWord;
    forall k | 0 <= k < n ensures Fits(|flat|, k) {
      assert Plotted(flat, k, ItemSeed(HtonUll(plotId), start, k), masked);
    }
  }

  /** One scoop of a window compares equal exactly if all its slots show what they should. */
  lemma ScoopMatches(plotId: bv64, file: Range, bytes: seq<byte>, w: Range, flat: seq<word>, s: nat, masked: bool)
    requires w.sn + w.n <= file.n && |bytes| == file.n * PLOT_SIZE && s < SCOOPS_PER_PLOT
    requires BlockShows(flat, plotId, U64(file.sn + w.sn), w.n, masked) && BlockFits(|flat|, w.n)
    ensures SlotAt(file.n, s, w.sn) + SCOOP_BYTES * w.n <= |bytes|
    ensures BytesOf(ScoopRow(flat, s, 0, w.n))
              == bytes[SlotAt(file.n, s, w.sn)..SlotAt(file.n, s, w.sn) + SCOOP_BYTES * w.n]
            <==> forall k | w.sn <= k < w.sn + w.n :: SlotShows(plotId, file, bytes, s, k, masked)
  {
    hide BytesOf, SlotShows, U64, BlockShows, SlotAt, Fits, ScoopRow;
    RunInFile(file.n, s, w.sn, w.n);
    var at := SlotAt(file.n, s, w.sn);
    var run := bytes[at..at + SCOOP_BYTES * w.n];
    var row := BytesOf(ScoopRow(flat, s, 0, w.n));
    forall j | 0 <= j < w.n
      ensures SlotShows(plotId, file, bytes, s, w.sn + j, masked)
          <==> row[SCOOP_BYTES * j..SCOOP_BYTES * j + SCOOP_BYTES] == run[SCOOP_BYTES * j..SCOOP_BYTES * j + SCOOP_BYTES]
    {
      SlotMatches(plotId, file, bytes, w, flat, s, j, masked);
    }
    if forall k | w.sn <= k < w.sn + w.n :: SlotShows(plotId, file, bytes, s, k, masked) {
      forall j | 0 <= j < w.n
        ensures row[SCOOP_BYTES * j..SCOOP_BYTES * j + SCOOP_BYTES] == run[SCOOP_BYTES * j..SCOOP_BYTES * j + SCOOP_BYTES]
      {
        assert SlotShows(plotId, file, bytes, s, w.sn + j, masked);
      }
      EqualByParts(row, run, w.n);
    }
    if row == run {
      forall k | w.sn <= k < w.sn + w.n ensures SlotShows(plotId, file, bytes, s, k, masked) {
        var j := k - w.sn;
        assert row[SCOOP_BYTES * j..SCOOP_BYTES * j + SCOOP_BYTES] == run[SCOOP_BYTES * j..SCOOP_BYTES * j + SCOOP_BYTES];
        assert SlotShows(plotId, file, bytes, s, w.sn + j, masked);
      }
    }
  }

  lemma SlotMatches(plotId: bv64, file: Range, bytes: seq<byte>, w: Range, flat: seq<word>, s: nat, j: nat, masked: bool)
    requires w.sn + w.n <= file.n && |bytes| == file.n * PLOT_SIZE && s < SCOOPS_PER_PLOT && j < w.n
    requires BlockShows(flat, plotId, U64(file.sn + w.sn), w.n, masked) && BlockFits(|flat|, w.n)
    ensures SlotAt(file.n, s, w.sn) + SCOOP_BYTES * w.n <= |bytes|
    ensures var at := SlotAt(file.n, s, w.sn);
            SlotShows(plotId, file, bytes, s, w.sn + j, masked) <==>
              BytesOf(ScoopRow(flat, s, 0, w.n))[SCOOP_BYTES * j..SCOOP_BYTES * j + SCOOP_BYTES]
                == bytes[at..at + SCOOP_BYTES * w.n][SCOOP_BYTES * j..SCOOP_BYTES * j + SCOOP_BYTES]
  {
    hide BytesOf, SlotRow, ShownRow, U64, Plotted, ItemSeed, HtonUll, SlotAt, Fits, ScoopRow;
    RunInFile(file.n, s, w.sn, w.n);
    RowOfChunk(flat, s, 0, w.n, j);
    RowIsShown(flat, plotId, U64(file.sn + w.sn), j, s, masked);
    NonceAfter(file.sn + w.sn, j);
    NextSlot(file.n, s, w.sn, j);
    SliceOfSlice(bytes, SlotAt(file.n, s, w.sn), SCOOP_BYTES * w.n, SCOOP_BYTES * j, SCOOP_BYTES);
  }

  lemma SliceOfSlice(b: seq<byte>, at: nat, length: nat, p: nat, len: nat)
    requires at + length <= |b| && p + len <= length
    ensures b[at..at + length][p..p + len] == b[at + p..at + p + len]
  {
    var x, y := b[at..at + length][p..p + len], b[at + p..at + p + len];
    forall i | 0 <= i < |y| ensures x[i] == y[i] {
    }
  }

  /** Sequences of n parts of 64 that agree part by part are equal. */
  lemma EqualByParts(x: seq<byte>, y: seq<byte>, n: nat)
    requires |x| == |y| == 64 * n
    requires forall j | 0 <= j < n :: x[64 * j..64 * j + 64] == y[64 * j..64 * j + 64]
    ensures x == y
  {
    forall i | 0 <= i < |x| ensures x[i] == y[i] {
      var j := i / 64;
      assert x[64 * j..64 * j + 64][i - 64 * j] == y[64 * j..64 * j + 64][i - 64 * j];
    }
  }

  datatype Verdict = BadHeader | ReadFailed | Mismatch(window: Range, scoop: nat) | Good

  /** Whether the launches of a device with this step option mask. */
  predicate MasksFor(step: nat) {
    GoodStep(LaunchStep(step))
  }

  /**
   * All windows from iteration i on show what the device computes for them. The one step option sets
   * both the gap between windows and the step of the device's launches.
   */
  ghost predicate AllShown(plotId: bv64, file: Range, bytes: seq<byte>, gws: nat, step: nat, i: nat)
    requires gws > 0
  {
    forall j | 0 <= j < |WindowsFrom(file.n, gws, step, i)| ::
      WindowShows(plotId, file, bytes, WindowsFrom(file.n, gws, step, i)[j], MasksFor(step))
  }

  lemma AllShownStep(plotId: bv64, file: Range, bytes: seq<byte>, gws: nat, step: nat, i: nat)
    requires gws > 0
    ensures i >= file.n ==> AllShown(plotId, file, bytes, gws, step, i)
    ensures i < file.n ==>
      (AllShown(plotId, file, bytes, gws, step, i) <==>
         && WindowShows(plotId, file, bytes, WindowAt(file.n, gws, i), MasksFor(step))
         && AllShown(plotId, file, bytes, gws, step, i + gws + step))
  {
    hide WindowShows, WindowAt, MasksFor;
    if i < file.n {
      var ws, later := WindowsFrom(file.n, gws, step, i), WindowsFrom(file.n, gws, step, i + gws + step);
      assert ws == [WindowAt(file.n, gws, i)] + later;
      assert ws[0] == WindowAt(file.n, gws, i);
      assert forall j | 0 <= j < |later| :: later[j] == ws[j + 1];
      assert forall j | 0 < j < |ws| :: ws[j] == later[j - 1];
    }
  }

  // ---- the check -------------------------------------------------------------------------------

  /** All scoops of one window. It gives up exactly when seeking or reading fails. */
  method CheckWindow(block: array<word>, cache: array<word>, disk: File, plotId: bv64, file: Range, w: Range,
                     ghost masked: bool)
    returns (v: Verdict)
    requires block != cache && SCOOP_WORDS * w.n <= cache.Length && BlockFits(block.Length, w.n)
    requires w.sn + w.n <= file.n && |disk.bytes| == file.n * PLOT_SIZE
    requires BlockShows(block[..], plotId, U64(file.sn + w.sn), w.n, masked)
    modifies cache, disk
    ensures disk.bytes == old(disk.bytes)
    ensures v == Good || v == ReadFailed || (v.Mismatch? && v.window == w && v.scoop < SCOOPS_PER_PLOT)
    ensures FailsBy(old(disk.failed), disk.failed, v != ReadFailed)
    ensures v == Good ==> WindowShows(plotId, file, disk.bytes, w, masked)
    ensures v.Mismatch? ==> !WindowShows(plotId, file, disk.bytes, w, masked)
  {
    hide BlockShows, Fits, U64, SlotShows, SlotAt, BytesOf, ScoopRow;
    ghost var flat, bytes := block[..], disk.bytes;
    for scoop := 0 to SCOOPS_PER_PLOT
      invariant block[..] == flat && disk.bytes == bytes && disk.failed == old(disk.failed)
      invariant forall s, k | 0 <= s < scoop && w.sn <= k < w.sn + w.n :: SlotShows(plotId, file, bytes, s, k, masked)
    {
      ScoopMatches(plotId, file, bytes, w, flat, scoop, masked);
      SeekOffset(file.n, scoop, w.sn);
      var found := disk.Seek((w.sn + scoop * file.n) * 64);
      var ok, stored := disk.Read(64 * w.n);
      if !found || !ok {
        return ReadFailed;
      }
      Transpose(block, cache, scoop, 0, w.n);
      assert block[..] == flat;
      if BytesOf(cache[..SCOOP_WORDS * w.n]) != stored {
        return Mismatch(w, scoop);
      }
    }
    return Good;
  }

  /** Plotting a window into a block of one work size. */
  method PlotWindow(dev: Device, block: array<word>, plotId: bv64, start: bv64, n: nat)
    requires dev.Valid() && n <= dev.gws <= ADDRESSABLE && block != dev.buf && block.Length == dev.buf.Length
    modifies dev.buf, block
    ensures BlockShows(block[..], plotId, start, n, GoodStep(dev.step))
  {
    hide Plotted, ItemSeed, HtonUll, GoodStep, OwnerOf;
    dev.Plot(plotId, start, n, block, 0);
    assert block[..] == block[0..dev.buf.Length];
  }

  /**
   * run_plot_verify, for a file named by its plot id, first nonce and number of nonces. The step option
   * is used twice: for the gap between windows, and for the device.
   */
  method VerifyFile(dev: Device, disk: File, plotId: bv64, start: nat, total: nat, step: nat)
    returns (v: Verdict)
    requires dev.Valid() && 0 < dev.gws <= ADDRESSABLE && dev.step == LaunchStep(step)
    modifies dev.buf, disk
    ensures disk.bytes == old(disk.bytes) && FailsBy(old(disk.failed), disk.failed, v != ReadFailed)
    ensures v == BadHeader <==> !HeaderOk(total, |disk.bytes|)
    ensures v == Good ==> AllShown(plotId, Range(start, total), disk.bytes, dev.gws, step, 0)
    ensures v.Mismatch? ==> !AllShown(plotId, Range(start, total), disk.bytes, dev.gws, step, 0)
    ensures FileGood(plotId, Range(start, total), disk.bytes, total) && HeaderOk(total, |disk.bytes|) && MasksFor(step)
      ==> v == Good || v == ReadFailed
  {
    hide BlockShows, Fits, WindowShows, AllShown, HtonUll, U64, NonceAt, FileGood, GoodStep;
    ghost var bytes := disk.bytes;
    var nonces := |disk.bytes| / PLOT_SIZE;
    if !HeaderOk(total, |disk.bytes|) {
      return BadHeader;
    }
    var file := Range(start, total);
    GoodFileShows(plotId, file, bytes, dev.gws, step);
    var block := new word[dev.gws * NONCE_SIZE_WORDS];
    var cache := new word[SCOOP_WORDS * dev.gws];
    var i: nat := 0;
    while i < nonces
      invariant disk.bytes == bytes && disk.failed == old(disk.failed)
      invariant AllShown(plotId, file, bytes, dev.gws, step, 0) <==> AllShown(plotId, file, bytes, dev.gws, step, i)
      decreases nonces + dev.gws + step - i
    {
      var w := WindowAt(nonces, dev.gws, i);
      PlotWindow(dev, block, plotId, U64(start + w.sn), w.n);
      ShownFits(block[..], plotId, U64(start + w.sn), w.n, MasksFor(step));
      v := CheckWindow(block, cache, disk, plotId, file, w, MasksFor(step));
      AllShownStep(plotId, file, bytes, dev.gws, step, i);
      if v != Good {
        return;
      }
      i := i + dev.gws + step;
    }
    AllShownStep(plotId, file, bytes, dev.gws, step, i);
    return Good;
  }

  // ---- what the verdict means ----------------------------------------------------------------

  /** The windows show what they should exactly if all nonces they look at do. */
  lemma {:induction false} AllShownIs(plotId: bv64, file: Range, bytes: seq<byte>, gws: nat, step: nat, i: nat)
    requires gws > 0
    ensures AllShown(plotId, file, bytes, gws, step, i) <==>
      forall s, k | 0 <= s < SCOOPS_PER_PLOT && 0 <= k < file.n && Looked(file.n, gws, step, i, k) ::
        SlotShows(plotId, file, bytes, s, k, MasksFor(step))
  {
    hide SlotShows, MasksFor;
    var ws := WindowsFrom(file.n, gws, step, i);
    if i < file.n {
      WindowsAreSpaced(file.n, gws, step, i);
    }
    if AllShown(plotId, file, bytes, gws, step, i) {
      forall s, k | 0 <= s < SCOOPS_PER_PLOT && 0 <= k < file.n && Looked(file.n, gws, step, i, k)
        ensures SlotShows(plotId, file, bytes, s, k, MasksFor(step))
      {
        var j :| 0 <= j < |ws| && ws[j].sn <= k < ws[j].sn + ws[j].n;
        assert WindowShows(plotId, file, bytes, ws[j], MasksFor(step));
      }
    }
    if forall s, k | 0 <= s < SCOOPS_PER_PLOT && 0 <= k < file.n && Looked(file.n, gws, step, i, k) ::
      SlotShows(plotId, file, bytes, s, k, MasksFor(step))
    {
      forall j | 0 <= j < |ws| ensures WindowShows(plotId, file, bytes, ws[j], MasksFor(step)) {
        forall s, k | 0 <= s < SCOOPS_PER_PLOT && ws[j].sn <= k < ws[j].sn + ws[j].n
          ensures SlotShows(plotId, file, bytes, s, k, MasksFor(step))
        {
          assert Looked(file.n, gws, step, i, k);
        }
      }
    }
  }

  lemma GoodSlotShows(plotId: bv64, file: Range, bytes: seq<byte>, s: nat, k: nat, masked: bool)
    requires s < SCOOPS_PER_PLOT
    ensures masked ==> (SlotShows(plotId, file, bytes, s, k, masked) <==> SlotGood(plotId, file, bytes, s, k))
    ensures !masked && SlotGood(plotId, file, bytes, s, k) ==>
      (SlotShows(plotId, file, bytes, s, k, masked) <==> ZeroFinal(plotId, U64(file.sn + k)))
  {
    hide ReferenceRow, UnmaskedRow, U64, ZeroFinal;
    RowsAgree(plotId, U64(file.sn + k), s);
  }

  /** With a good step, a file with the layout of the writers shows what it should in every window. */
  lemma GoodFileShows(plotId: bv64, file: Range, bytes: seq<byte>, gws: nat, step: nat)
    requires gws > 0
    ensures FileGood(plotId, file, bytes, file.n) && MasksFor(step) ==> AllShown(plotId, file, bytes, gws, step, 0)
  {
    hide SlotShows, SlotGood, Looked, AllShown, MasksFor;
    AllShownIs(plotId, file, bytes, gws, step, 0);
    if FileGood(plotId, file, bytes, file.n) && MasksFor(step) {
      forall s, k | 0 <= s < SCOOPS_PER_PLOT && 0 <= k < file.n && Looked(file.n, gws, step, 0, k)
        ensures SlotShows(plotId, file, bytes, s, k, MasksFor(step))
      {
        GoodSlotShows(plotId, file, bytes, s, k, MasksFor(step));
        assert SlotGood(plotId, file, bytes, s, k);
      }
    }
  }

  /**
   * When is a file with the layout of the writers accepted? Exactly if the launches of the device mask,
   * that is, if the step option is 0 or divides 8192 or 8193; or else if the final hashes of all
   * nonces looked at happen to be zero, so that the mask makes no difference.
   */
  lemma WrittenFileShowsIff(plotId: bv64, file: Range, bytes: seq<byte>, gws: nat, step: nat)
    requires gws > 0 && FileGood(plotId, file, bytes, file.n)
    ensures AllShown(plotId, file, bytes, gws, step, 0) <==>
      || MasksFor(step)
      || forall k | 0 <= k < file.n && Looked(file.n, gws, step, 0, k) :: ZeroFinal(plotId, U64(file.sn + k))
  {
    hide SlotShows, SlotGood, Looked, AllShown, MasksFor, ZeroFinal, U64;
    AllShownIs(plotId, file, bytes, gws, step, 0);
    GoodFileShows(plotId, file, bytes, gws, step);
    if !MasksFor(step) {
      forall s, k | 0 <= s < SCOOPS_PER_PLOT && 0 <= k < file.n
        ensures SlotShows(plotId, file, bytes, s, k, false) <==> ZeroFinal(plotId, U64(file.sn + k))
      {
        assert SlotGood(plotId, file, bytes, s, k);
        GoodSlotShows(plotId, file, bytes, s, k, false);
      }
      if AllShown(plotId, file, bytes, gws, step, 0) {
        forall k | 0 <= k < file.n && Looked(file.n, gws, step, 0, k) ensures ZeroFinal(plotId, U64(file.sn + k)) {
          assert SlotShows(plotId, file, bytes, 0, k, MasksFor(step));
        }
      }
    }
  }

  /** For the step option these are 0 and the divisors of 8192 and 8193; 100, for one, is not among them. */
  lemma StepsThatMask(step: nat)
    ensures MasksFor(step) <==> step == 0 || 8192 % step == 0 || 8193 % step == 0
    ensures MasksFor(step) <==> Masks(LaunchesFrom(NUM_HASHES, LaunchStep(step)))
    ensures !MasksFor(100)
  {
    GoodSteps(LaunchStep(step));
  }

  /** With step 0 exactly the files that the writers should leave are accepted. */
  lemma StepZeroIsComplete(plotId: bv64, file: Range, bytes: seq<byte>, gws: nat)
    requires gws > 0
    ensures AllShown(plotId, file, bytes, gws, 0, 0) <==> FileGood(plotId, file, bytes, file.n)
  {
    assert MasksFor(0);
    hide SlotShows, SlotGood, Looked, MasksFor;
    AllShownIs(plotId, file, bytes, gws, 0, 0);
    GoodFileShows(plotId, file, bytes, gws, 0);
    if AllShown(plotId, file, bytes, gws, 0, 0) {
      forall s, k | 0 <= s < SCOOPS_PER_PLOT && 0 <= k < file.n ensures SlotGood(plotId, file, bytes, s, k) {
        StepZeroLooksAtAll(file.n, gws, 0, k);
        GoodSlotShows(plotId, file, bytes, s, k, MasksFor(0));
      }
    }
  }

  /**
   * With a good step any change inside a window is noticed: each byte of a nonce that is looked at must
   * be the byte of the reference plot. So two accepted files agree on all these bytes.
   */
  lemma LookedByteIsFixed(plotId: bv64, file: Range, bytes: seq<byte>, gws: nat, step: nat, s: nat, k: nat, b: nat)
    requires gws > 0 && AllShown(plotId, file, bytes, gws, step, 0) && MasksFor(step)
    requires s < SCOOPS_PER_PLOT && k < file.n && b < 64 && Looked(file.n, gws, step, 0, k)
    ensures ByteGood(plotId, file, bytes, s, k, b)
  {
    hide SlotShows, SlotGood, ByteGood, Looked, MasksFor;
    AllShownIs(plotId, file, bytes, gws, step, 0);
    GoodSlotShows(plotId, file, bytes, s, k, MasksFor(step));
    SlotByBytes(plotId, file, bytes, s, k);
  }

  /** And a byte of a nonce that is not looked at does not matter to the verdict. */
  lemma UnlookedByteIsFree(plotId: bv64, file: Range, x: seq<byte>, y: seq<byte>, gws: nat, step: nat)
    requires gws > 0 && |x| == |y|
    requires forall s, k | 0 <= s < SCOOPS_PER_PLOT && 0 <= k < file.n && Looked(file.n, gws, step, 0, k) ::
               SameSlot(x, y, file.n, s, k)
    ensures AllShown(plotId, file, x, gws, step, 0) <==> AllShown(plotId, file, y, gws, step, 0)
  {
    hide SlotHolds, Looked, U64, ShownRow, MasksFor;
    AllShownIs(plotId, file, x, gws, step, 0);
    AllShownIs(plotId, file, y, gws, step, 0);
    forall s, k | 0 <= s < SCOOPS_PER_PLOT && 0 <= k < file.n && Looked(file.n, gws, step, 0, k)
      ensures SlotShows(plotId, file, x, s, k, MasksFor(step)) <==> SlotShows(plotId, file, y, s, k, MasksFor(step))
    {
      assert SameSlot(x, y, file.n, s, k);
      SameSlotSame(x, y, file.n, s, k, ShownRow(plotId, U64(file.sn + k), s, MasksFor(step)));
    }
  }

  lemma SameSlotSame(x: seq<byte>, y: seq<byte>, size: nat, s: nat, k: nat, row: seq<byte>)
    requires |x| == |y| && SameSlot(x, y, size, s, k)
    ensures SlotHolds(x, size, s, k, row) <==> SlotHolds(y, size, s, k, row)
  {
  }
}
