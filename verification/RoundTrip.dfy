/** Writer and verifier together: when is a file that a run has renamed accepted? */
module RoundTrip {
  import opened Words
  import opened CpuPlotter
  import opened Transposition
  import opened PlotFile
  import opened Tasks
  import opened Hasher
  import opened WriterWorker
  import opened Pipeline
  import opened WriterProgress
  import opened PipelineSafety
  import opened PipelineContents
  import opened EndToEnd
  import opened Verifier

  // ---- how long files get ---------------------------------------------------------------------

  ghost predicate SizeFrom(was: seq<byte>, now: seq<byte>, n: nat) {
    |was| <= |now| <= Longer(|was|, n * PLOT_SIZE)
  }

  ghost predicate WriterSizes(plan: seq<Range>, was: seq<seq<byte>>, now: seq<seq<byte>>) {
    && |was| == |now| == |plan|
    && forall f | 0 <= f < |plan| :: SizeFrom(was[f], now[f], plan[f].n)
  }

  /** No file has shrunk, or grown beyond what its nonces need. */
  ghost predicate SizesFrom(c: Config, s0: Sys, s: Sys) {
    && |s0.ws| == |s.ws| == |c.plan|
    && forall w | 0 <= w < |c.plan| :: WriterSizes(c.plan[w], s0.ws[w].disk, s.ws[w].disk)
  }

  lemma SizesAtStart(c: Config, s: Sys)
    requires Initial(c, s)
    ensures SizesFrom(c, s, s)
  {
  }

  lemma SizesStep(c: Config, s0: Sys, s: Sys, l: Label)
    requires Ordered(c, s) && SizesFrom(c, s0, s) && Enabled(c, s, l)
    ensures SizesFrom(c, s0, Apply(c, s, l))
  {
    hide WriterSizes, Ordered, Submit, NextPiece, OthersIntact, RegionWritten, HeldAlready, BlockHolds;
    var after := Apply(c, s, l);
    if l.WriteFail? || l.WriteOk? || l.WriteTorn? {
      AttemptSizes(c, s0, s, l.w, l.bytes);
      forall w | 0 <= w < |c.plan| ensures WriterSizes(c.plan[w], s0.ws[w].disk, after.ws[w].disk) {
        assert WriterSizes(c.plan[w], s0.ws[w].disk, s.ws[w].disk);
      }
    } else {
      forall w | 0 <= w < |c.plan| ensures WriterSizes(c.plan[w], s0.ws[w].disk, after.ws[w].disk) {
        assert WriterSizes(c.plan[w], s0.ws[w].disk, s.ws[w].disk);
        assert after.ws[w].disk == s.ws[w].disk;
      }
    }
  }

  lemma AttemptSizes(c: Config, s0: Sys, s: Sys, w: nat, bytes: seq<byte>)
    requires Ordered(c, s) && SizesFrom(c, s0, s) && IsWriting(s, w) && HasFile(s.ws[w], s.ws[w].busy.task.file)
    requires var t := s.ws[w].busy.task;
             var file := s.ws[w].files[t.file];
             && file.initSn <= t.sn
             && OthersIntact(s.ws[w].disk[t.file], bytes, file.initN, t.sn - file.initSn, t.n)
    ensures w < |c.plan|
    ensures WriterSizes(c.plan[w], s0.ws[w].disk, s.ws[w].disk[s.ws[w].busy.task.file := bytes])
  {
    hide FilesOk, Contiguous, SameSlot;
    var wr, f := s.ws[w], s.ws[w].busy.task.file;
    assert WriterOk(c, w, wr, ForWriter(w, Upstream(s)), s.hasher == Counting(w), s.stopped);
    WritingAt(c, w, wr, ForWriter(w, Upstream(s)), s.hasher == Counting(w), s.stopped);
    assert WriterSizes(c.plan[w], s0.ws[w].disk, wr.disk);
    assert SizeFrom(s0.ws[w].disk[f], wr.disk[f], c.plan[w][f].n);
  }

  lemma {:induction false} RunSizes(c: Config, states: seq<Sys>, labels: seq<Label>, i: nat)
    requires Ready(c) && IsRun(c, states, labels) && i <= |labels|
    ensures SizesFrom(c, states[0], states[i])
  {
    hide Initial, Enabled, Apply, SizesFrom, Accounted, Ordered, Contents;
    if i == 0 {
      SizesAtStart(c, states[0]);
    } else {
      RunSizes(c, states, labels, i - 1);
      RunKeeps(c, states, labels, i - 1);
      SizesStep(c, states[0], states[i - 1], labels[i - 1]);
    }
  }

  /** A complete file has at least the bytes of its nonces. */
  lemma GoodFileIsLong(plotId: bv64, r: Range, bytes: seq<byte>)
    requires FileGood(plotId, r, bytes, r.n) && r.n > 0
    ensures |bytes| >= r.n * PLOT_SIZE
  {
    hide U64, ReferenceRow;
    assert SlotGood(plotId, r, bytes, SCOOPS_PER_PLOT - 1, r.n - 1);
    assert SlotAt(r.n, SCOOPS_PER_PLOT - 1, r.n - 1) + 64 == r.n * PLOT_SIZE;
  }

  // ---- the round trip ----------------------------------------------------------------------------

  lemma SizeOfGoodFile(plotId: bv64, r: Range, was: seq<byte>, bytes: seq<byte>)
    requires FileGood(plotId, r, bytes, r.n) && r.n > 0 && SizeFrom(was, bytes, r.n)
    ensures |bytes| == Longer(|was|, r.n * PLOT_SIZE)
    ensures HeaderOk(r.n, |bytes|) <==> |was| <= r.n * PLOT_SIZE && (r.n % 2 == 0 || r.n == 7)
  {
    GoodFileIsLong(plotId, r, bytes);
    hide FileGood;
    HeaderAccepts(r.n, |bytes|);
  }

  /**
   * In every run, take a renamed file to which no write was cut off with rows missing. It passes the
   * check of its size exactly if the temporary file that the run found was not longer than the plots
   * need, and the number of nonces is even or 7. It passes the comparison exactly if the verifier's
   * step option makes its device mask (or all final hashes looked at are zero), for every work size.
   */
  lemma RenamedFileIsAccepted(c: Config, states: seq<Sys>, labels: seq<Label>, i: nat, w: nat, f: nat,
                              gws: nat, step: nat)
    requires Ready(c) && IsRun(c, states, labels) && i <= |labels|
    requires w < |c.plan| && f < |c.plan[w]| && Renamed(states[i], w, f) && gws > 0
    requires !exists j | 0 <= j < i :: Spoils(states[j], labels[j], w, f)
    ensures w < |states[0].ws| && f < |states[0].ws[w].disk|
    ensures var r, was, bytes := c.plan[w][f], states[0].ws[w].disk[f], states[i].ws[w].disk[f];
            && (HeaderOk(r.n, |bytes|) <==> |was| <= r.n * PLOT_SIZE && (r.n % 2 == 0 || r.n == 7))
            && (AllShown(c.plotId, r, bytes, gws, step, 0) <==>
                  || MasksFor(step)
                  || forall k | 0 <= k < r.n && Looked(r.n, gws, step, 0, k) :: ZeroFinal(c.plotId, U64(r.sn + k)))
  {
    hide Initial, Enabled, Apply, FileGood, IsPlot, AllShown, HeaderOk, Spoils, BlockBounds, PlanTotal, Looked, ZeroFinal,
         MasksFor, U64;
    RenamedFileIsThePlot(c, states, labels, i, w, f);
    RunSizes(c, states, labels, i);
    assert WriterSizes(c.plan[w], states[0].ws[w].disk, states[i].ws[w].disk);
    var r, bytes := c.plan[w][f], states[i].ws[w].disk[f];
    GoodFileIsPlot(c.plotId, r, bytes);
    SizeOfGoodFile(c.plotId, r, states[0].ws[w].disk[f], bytes);
    WrittenFileShowsIff(c.plotId, r, bytes, gws, step);
  }
}
