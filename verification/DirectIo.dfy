/** Direct input and output: the offsets and lengths that an unbuffered file demands. */
module DirectIo {
  import opened Words
  import opened PlotFile
  import opened Tasks
  import opened WriterWorker
  import opened Hasher
  import opened Pipeline
  import opened PipelineTotals
  import opened WriterProgress
  import opened PipelineSafety
  import opened EndToEnd

  /** The unit of unbuffered transfers, in nonces of one scoop and in bytes. */
  const SECTOR_NONCES := 8
  const SECTOR_BYTES := 512

  predicate Eight(n: int) {
    n % SECTOR_NONCES == 0
  }

  /** What is left of the file, and what has gone out, are whole sectors. */
  predicate Aligned(t: FileTask) {
    Eight(t.left) && Eight(t.prev - t.initSn)
  }

  /** Cutting a piece keeps a file aligned, and the piece is. */
  lemma NextAligned(t: FileTask, gws: nat)
    requires Aligned(t) && Eight(gws)
    ensures Aligned(Tasks.Next(t, gws).0)
    ensures Tasks.Next(t, gws).1 != -1 ==> Eight(Tasks.Next(t, gws).1) && Eight(Tasks.Next(t, gws).0.sn - t.initSn)
  {
  }

  /** All offsets and lengths of the writes of one task are whole sectors. */
  lemma WritesAligned(size: nat, off: nat, n: nat, s: nat, k: nat, m: nat)
    requires Eight(size) && Eight(off) && Eight(n) && Eight(k) && k <= n
    requires m == if n - k < SCOOPS_PER_WRITE then n - k else SCOOPS_PER_WRITE
    ensures SlotAt(size, s, off + k) % SECTOR_BYTES == 0
    ensures SCOOP_BYTES * m % SECTOR_BYTES == 0
    ensures Eight(k + SCOOPS_PER_WRITE)
  {
    hide Eight;
    EightSums(off, n, k);
    RowAligned(size, s);
    EightSums(s * size, 0, off + k);
    WholeSectors(s * size + (off + k));
    WholeSectors(m);
  }

  lemma EightSums(off: nat, n: nat, k: nat)
    requires Eight(off) && Eight(k)
    ensures Eight(off + k) && Eight(k + SCOOPS_PER_WRITE) && Eight(SCOOPS_PER_WRITE)
    ensures Eight(n) ==> Eight(n - k)
  {
  }

  lemma RowAligned(size: nat, s: nat)
    requires Eight(size)
    ensures Eight(s * size)
  {
    var q := size / 8;
    assert size == 8 * q;
    EightTimes(s, q);
  }

  lemma EightTimes(s: nat, q: nat)
    ensures Eight(s * (8 * q))
  {
    assert s * (8 * q) == 8 * (s * q);
  }

  lemma WholeSectors(n: nat)
    requires Eight(n)
    ensures n * SCOOP_BYTES % SECTOR_BYTES == 0
  {
  }

  ghost predicate AllAligned(c: Config, s: Sys) {
    forall w, f | 0 <= w < |s.ws| && 0 <= f < |s.ws[w].files| :: Aligned(s.ws[w].files[f])
  }

  lemma StepAligned(c: Config, s: Sys, l: Label)
    requires Eight(c.workSize) && Ordered(c, s) && AllAligned(c, s) && Enabled(c, s, l)
    ensures AllAligned(c, Apply(c, s, l))
    ensures l.Dispatch? && Dispatched(c, s, l.block).Some? ==>
      var t := Dispatched(c, s, l.block).value;
      t.file < |s.ws[t.writer].files| && Eight(t.n) && Eight(t.sn - s.ws[t.writer].files[t.file].initSn)
  {
    hide Aligned, Attempted, WrittenUpTo, HeldAlready, BlockHolds, WriterOk, ForWriter, NextPiece;
    var after := Apply(c, s, l);
    if l.Dispatch? {
      CutAligned(c, s, l.block);
    } else if l.WriteOk? || l.WriteTorn? {
      BookedAligned(s.ws[l.w], s.ws[l.w].busy.task, l.bytes);
    }
  }

  lemma BookedAligned(wr: Writer, t: HashTask, bytes: seq<byte>)
    requires HasFile(wr, t.file) && forall f | 0 <= f < |wr.files| :: Aligned(wr.files[f])
    ensures forall f | 0 <= f < |wr.files| :: Aligned(Commit(wr, t, bytes).files[f])
  {
  }

  lemma CutAligned(c: Config, s: Sys, b: nat)
    requires Eight(c.workSize) && Ordered(c, s) && AllAligned(c, s) && Enabled(c, s, Dispatch(b))
    ensures AllAligned(c, Apply(c, s, Dispatch(b)))
    ensures Dispatched(c, s, b).Some? ==>
      var t := Dispatched(c, s, b).value;
      t.file < |s.ws[t.writer].files| && Eight(t.n) && Eight(t.sn - s.ws[t.writer].files[t.file].initSn)
  {
    hide Aligned, Contiguous, FileIs, ForWriter, MayDispatch, NextPiece;
    var w := Selected(s);
    var wr := s.ws[w];
    assert WriterOk(c, w, wr, ForWriter(w, Upstream(s)), s.hasher == Counting(w), s.stopped);
    NextPieceIs(wr.files, wr.cursor, c.workSize);
    var cut := NextPiece(wr.files, wr.cursor, c.workSize);
    if cut.piece.Some? {
      assert Aligned(wr.files[cut.cursor]);
      NextAligned(wr.files[cut.cursor], c.workSize);
    }
  }

  /**
   * In every run: when the work size and all files are multiples of 8 nonces, so is every task that
   * is dispatched and its place in its file. With WritesAligned, every write then meets the demands
   * of a file without buffering.
   */
  lemma {:induction false} RunAligned(c: Config, states: seq<Sys>, labels: seq<Label>, i: nat)
    requires Ready(c) && IsRun(c, states, labels) && i <= |labels| && Eight(c.workSize)
    requires forall w, f | 0 <= w < |c.plan| && 0 <= f < |c.plan[w]| :: Eight(c.plan[w][f].n)
    ensures AllAligned(c, states[i])
    ensures (i < |labels| && labels[i].Dispatch? && states[i].ws != []
             && Dispatched(c, states[i], labels[i].block).Some?) ==>
      var t := Dispatched(c, states[i], labels[i].block).value;
      t.file < |states[i].ws[t.writer].files| && Eight(t.n) && Eight(t.sn - states[i].ws[t.writer].files[t.file].initSn)
  {
    hide Enabled, Apply, Aligned, Accounted, Ordered;
    RunKeeps(c, states, labels, i);
    if i == 0 {
      FreshAligned(c, states[0]);
    } else {
      RunAligned(c, states, labels, i - 1);
      RunKeeps(c, states, labels, i - 1);
      StepAligned(c, states[i - 1], labels[i - 1]);
    }
    if i < |labels| {
      StepAligned(c, states[i], labels[i]);
    }
  }

  lemma FreshAligned(c: Config, s: Sys)
    requires Initial(c, s) && forall w, f | 0 <= w < |c.plan| && 0 <= f < |c.plan[w]| :: Eight(c.plan[w][f].n)
    ensures AllAligned(c, s)
  {
  }
}
