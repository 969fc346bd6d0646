/** What is in memory and on disk, and which files a stop has spoiled. */
module PipelineContents {
  import opened Words
  import opened Layout
  import opened Transposition
  import opened PlotFile
  import opened Tasks
  import opened Hasher
  import opened WriterWorker
  import opened Pipeline
  import opened PipelineTotals
  import opened WriterProgress
  import opened PipelineSafety

  // ---- one file -------------------------------------------------------------------------------

  /** Scoop s of the file's nonce k is where it belongs, and is the reference plot's. */
  ghost predicate SlotGood(plotId: bv64, r: Range, bytes: seq<byte>, s: nat, k: nat)
    requires s < SCOOPS_PER_PLOT
  {
    SlotHolds(bytes, r.n, s, k, ReferenceRow(plotId, U64(r.sn + k), s))
  }

  /** So it is for every scoop of the file's first m nonces. */
  ghost predicate FileGood(plotId: bv64, r: Range, bytes: seq<byte>, m: nat) {
    forall s, k | 0 <= s < SCOOPS_PER_PLOT && 0 <= k < m :: SlotGood(plotId, r, bytes, s, k)
  }

  /** An attempt at the next piece, even a failed one, leaves what is already there. */
  lemma AttemptKeepsGood(plotId: bv64, r: Range, was: seq<byte>, now: seq<byte>, m: nat, n: nat)
    requires FileGood(plotId, r, was, m) && m + n <= r.n && OthersIntact(was, now, r.n, m, n)
    ensures FileGood(plotId, r, now, m)
  {
    hide SlotHolds, SameSlot, U64, ReferenceRow;
    forall s, k | 0 <= s < SCOOPS_PER_PLOT && 0 <= k < m
      ensures SlotGood(plotId, r, now, s, k)
    {
      assert SlotGood(plotId, r, was, s, k);
      SlotKept(was, now, r.n, s, k, ReferenceRow(plotId, U64(r.sn + k), s));
    }
  }

  /** A completed attempt adds the piece. */
  lemma AttemptAddsPiece(plotId: bv64, r: Range, now: seq<byte>, m: nat, n: nat, flat: seq<word>)
    requires FileGood(plotId, r, now, m)
    requires BlockFits(|flat|, n) && RegionWritten(now, r.n, m, n, flat)
    requires BlockHolds(flat, plotId, U64(r.sn + m), n)
    ensures FileGood(plotId, r, now, m + n)
  {
    hide SlotHolds, BlockHolds, U64, ReferenceRow, SlotRow, BlockFits;
    forall s, k | 0 <= s < SCOOPS_PER_PLOT && 0 <= k < m + n
      ensures SlotGood(plotId, r, now, s, k)
    {
      if k < m {
        assert SlotGood(plotId, r, now, s, k);
      } else {
        RowIsReference(flat, plotId, U64(r.sn + m), n, k - m, s);
        NonceAfter(r.sn + m, k - m);
        assert SlotDone(now, r.n, s, k, flat, m);
      }
    }
  }

  lemma NonceAfter(sn: nat, j: nat)
    ensures NonceAt(U64(sn), j) == U64(sn + j)
  {
  }

  // ---- one writer -----------------------------------------------------------------------------

  /** The task's block holds its finished nonces. */
  ghost predicate InMemory(c: Config, mem: map<nat, seq<word>>, t: HashTask) {
    t.block in mem && BlockHolds(mem[t.block], c.plotId, U64(t.sn), t.n)
  }

  /** Exactly the spoiled file, if any, does not hold what has been booked for it. */
  ghost predicate DiskGood(c: Config, plan: seq<Range>, wr: Writer) {
    && |wr.files| == |wr.disk| == |plan|
    && (wr.spoiled.Some? ==> wr.halted)
    && forall f | 0 <= f < |plan| ::
         FileGood(c.plotId, plan[f], wr.disk[f], wr.files[f].submitted) <==> wr.spoiled != Some(f)
  }

  ghost predicate WriterGood(c: Config, plan: seq<Range>, wr: Writer, mem: map<nat, seq<word>>) {
    DiskGood(c, plan, wr) && forall t | t in Local(wr) :: InMemory(c, mem, t)
  }

  ghost predicate Contents(c: Config, s: Sys) {
    && |s.ws| == |c.plan|
    && forall w | 0 <= w < |s.ws| :: WriterGood(c, c.plan[w], s.ws[w], s.mem)
  }

  lemma ContentsAtStart(c: Config, s: Sys)
    requires Initial(c, s)
    ensures Contents(c, s)
  {
  }

  /** The block that the hasher is filling is not the block of a task that has left it. */
  lemma HashedBlockIsApart(c: Config, s: Sys, w: nat, t: HashTask)
    requires Accounted(c, s) && s.hasher.Working? && w < |s.ws| && t in Local(s.ws[w])
    ensures t.block != s.hasher.task.block
  {
    hide InSeq, InWriters;
    var k := OnBlock(t.block);
    InLocal(k, s.ws[w], t);
    InOneWriter(k, s.ws, w);
    assert InFlight(k, s) <= 1;
  }

  lemma InLocal(k: Kind, wr: Writer, t: HashTask)
    requires t in Local(wr)
    ensures InWriter(k, wr) >= Weight(k, t)
  {
    if t in wr.queue {
      InSeqMember(k, wr.queue, t);
    }
  }

  lemma {:induction false} InSeqMember(k: Kind, ts: seq<HashTask>, t: HashTask)
    requires t in ts
    ensures InSeq(k, ts) >= Weight(k, t)
  {
    if ts[0] != t {
      InSeqMember(k, ts[1..], t);
    }
  }

  lemma {:induction false} InOneWriter(k: Kind, ws: seq<Writer>, w: nat)
    requires w < |ws|
    ensures InWriters(k, ws) >= InWriter(k, ws[w])
  {
    if w > 0 {
      InOneWriter(k, ws[1..], w - 1);
    }
  }

  /** A change that leaves the disk and what was booked alone, and adds no unwritten task. */
  lemma GoodSame(c: Config, plan: seq<Range>, wr: Writer, x: Writer, mem: map<nat, seq<word>>)
    requires WriterGood(c, plan, wr, mem) && x.disk == wr.disk && |x.files| == |wr.files|
    requires x.spoiled == wr.spoiled && (wr.halted ==> x.halted)
    requires forall f | 0 <= f < |wr.files| :: x.files[f].submitted == wr.files[f].submitted
    requires forall t | t in Local(x) :: t in Local(wr)
    ensures WriterGood(c, plan, x, mem)
  {
  }

  lemma HandOutBooksNothing(wr: Writer, gws: nat)
    requires wr.cursor <= |wr.files|
    ensures var x := HandOut(wr, NextPiece(wr.files, wr.cursor, gws));
            && |x.files| == |wr.files|
            && forall f | 0 <= f < |wr.files| :: x.files[f].submitted == wr.files[f].submitted
  {
    NextPieceIs(wr.files, wr.cursor, gws);
    hide NextPiece;
  }

  /** What the order of a writer says about the task it is writing, in terms of its file. */
  lemma WritingAt(c: Config, w: nat, wr: Writer, up: seq<HashTask>, counting: bool, stopped: bool)
    requires w < |c.plan| && WriterOk(c, w, wr, up, counting, stopped) && wr.busy.Writing?
    ensures var t, plan := wr.busy.task, c.plan[w];
            && PieceOf(plan, t) && HasFile(wr, t.file)
            && wr.files[t.file].initSn == plan[t.file].sn && wr.files[t.file].initN == plan[t.file].n
            && plan[t.file].sn + wr.files[t.file].submitted == t.sn
            && wr.files[t.file].submitted + t.n <= plan[t.file].n
  {
    WritingIsNext(c, w, wr, up, counting, stopped);
    var t, plan := wr.busy.task, c.plan[w];
    CommitKeeps(plan, wr, t, []);
    hide Contiguous, Covered, Base;
    assert FileIs(plan, wr, t.file);
  }

  /** The writer of a spoiled file has ended, so one that writes has spoiled none. */
  lemma NotYetSpoiled(c: Config, w: nat, wr: Writer, up: seq<HashTask>, counting: bool, stopped: bool,
                      mem: map<nat, seq<word>>)
    requires w < |c.plan| && WriterOk(c, w, wr, up, counting, stopped) && wr.busy.Writing?
    requires WriterGood(c, c.plan[w], wr, mem)
    ensures wr.spoiled == None
    ensures forall f | 0 <= f < |c.plan[w]| :: FileGood(c.plotId, c.plan[w][f], wr.disk[f], wr.files[f].submitted)
  {
    hide FileGood, InMemory, FilesOk, Contiguous;
  }

  lemma FailKeepsGood(c: Config, w: nat, s: Sys, bytes: seq<byte>)
    requires Ordered(c, s) && Contents(c, s) && Enabled(c, s, WriteFail(w, bytes))
    ensures WriterGood(c, c.plan[w], Overwrite(s.ws[w], s.ws[w].busy.task.file, bytes), s.mem)
  {
    hide FileGood, InMemory, OthersIntact, RegionWritten, FilesOk, Contiguous;
    var wr, t := s.ws[w], s.ws[w].busy.task;
    WritingGood(c, w, s);
    AttemptKeepsGood(c.plotId, c.plan[w][t.file], wr.disk[t.file], bytes, wr.files[t.file].submitted, t.n);
    assert Local(Overwrite(wr, t.file, bytes)) == Local(wr);
  }

  lemma OkKeepsGood(c: Config, w: nat, s: Sys, bytes: seq<byte>)
    requires Ordered(c, s) && Contents(c, s) && Enabled(c, s, WriteOk(w, bytes))
    ensures WriterGood(c, c.plan[w], Commit(s.ws[w], s.ws[w].busy.task, bytes), s.mem)
  {
    hide FileGood, BlockHolds, OthersIntact, RegionWritten, FilesOk, Contiguous, BlockFits;
    var wr, t := s.ws[w], s.ws[w].busy.task;
    WritingGood(c, w, s);
    var r, m := c.plan[w][t.file], wr.files[t.file].submitted;
    AttemptKeepsGood(c.plotId, r, wr.disk[t.file], bytes, m, t.n);
    AttemptAddsPiece(c.plotId, r, bytes, m, t.n, s.mem[t.block]);
    CommitGood(c, c.plan[w], wr, t, bytes, s.mem);
  }

  /** What is known of a writer that is writing. */
  lemma WritingGood(c: Config, w: nat, s: Sys)
    requires Ordered(c, s) && Contents(c, s) && IsWriting(s, w)
    ensures var wr, t, plan := s.ws[w], s.ws[w].busy.task, c.plan[w];
            && PieceOf(plan, t) && HasFile(wr, t.file)
            && wr.files[t.file].initSn == plan[t.file].sn && wr.files[t.file].initN == plan[t.file].n
            && plan[t.file].sn + wr.files[t.file].submitted == t.sn
            && wr.files[t.file].submitted + t.n <= plan[t.file].n
            && InMemory(c, s.mem, t) && wr.spoiled == None && WriterGood(c, plan, wr, s.mem)
            && forall f | 0 <= f < |plan| :: FileGood(c.plotId, plan[f], wr.disk[f], wr.files[f].submitted)
  {
    hide FileGood, InMemory, FilesOk, Contiguous, PieceOf;
    var wr := s.ws[w];
    assert WriterOk(c, w, wr, ForWriter(w, Upstream(s)), s.hasher == Counting(w), s.stopped);
    WritingAt(c, w, wr, ForWriter(w, Upstream(s)), s.hasher == Counting(w), s.stopped);
    assert WriterGood(c, c.plan[w], wr, s.mem);
    NotYetSpoiled(c, w, wr, ForWriter(w, Upstream(s)), s.hasher == Counting(w), s.stopped, s.mem);
    assert wr.busy.task in Local(wr);
  }

  /** Booking a piece: only its own file is in question. */
  lemma CommitGood(c: Config, plan: seq<Range>, wr: Writer, t: HashTask, bytes: seq<byte>, mem: map<nat, seq<word>>)
    requires WriterGood(c, plan, wr, mem) && wr.spoiled == None && HasFile(wr, t.file) && wr.busy == Writing(t)
    requires t.file < |plan|
    ensures var x := Commit(wr, t, bytes);
            var good := FileGood(c.plotId, plan[t.file], bytes, wr.files[t.file].submitted + t.n);
            && WriterGood(c, plan, x.(halted := true, spoiled := if good then None else Some(t.file)), mem)
            && (good ==> WriterGood(c, plan, x, mem))
  {
    hide FileGood, InMemory;
    var x := Commit(wr, t, bytes);
    assert forall u | u in Local(x) :: u in Local(wr);
    forall g | 0 <= g < |plan| && g != t.file
      ensures FileGood(c.plotId, plan[g], x.disk[g], x.files[g].submitted)
    {
      assert FileGood(c.plotId, plan[g], wr.disk[g], wr.files[g].submitted);
    }
  }

  /**
   * A write that a stop has cut off leaves what the books promise exactly if every slot from the cut
   * on held its row before the write.
   */
  lemma CutWriteGood(plotId: bv64, r: Range, was: seq<byte>, now: seq<byte>, m: nat, n: nat, flat: seq<word>, cut: Mark)
    requires FileGood(plotId, r, was, m) && m + n <= r.n && BlockHolds(flat, plotId, U64(r.sn + m), n)
    requires WrittenUpTo(was, now, r.n, m, n, flat, cut)
    ensures FileGood(plotId, r, now, m + n) <==>
      forall v, k | 0 <= v < SCOOPS_PER_PLOT && m <= k < m + n && !Before(v, k, cut) :: SlotDone(was, r.n, v, k, flat, m)
  {
    hide FileGood, BlockHolds, SlotDone, Untouched, OthersIntact, Fits;
    AttemptKeepsGood(plotId, r, was, now, m, n) by {
      WrittenIntact(was, now, r.n, m, n, flat, cut);
    }
    if forall v, k | 0 <= v < SCOOPS_PER_PLOT && m <= k < m + n && !Before(v, k, cut) ::
      SlotDone(was, r.n, v, k, flat, m)
    {
      forall v, k | 0 <= v < SCOOPS_PER_PLOT && m <= k < m + n ensures SlotDone(now, r.n, v, k, flat, m) {
        if !Before(v, k, cut) {
          UntouchedDone(was, now, r.n, v, k, flat, m);
        }
      }
      AttemptAddsPiece(plotId, r, now, m, n, flat);
    }
    if FileGood(plotId, r, now, m + n) {
      GoodMeansWritten(plotId, r, now, m, n, flat);
      forall v, k | 0 <= v < SCOOPS_PER_PLOT && m <= k < m + n && !Before(v, k, cut)
        ensures SlotDone(was, r.n, v, k, flat, m)
      {
        UntouchedDone(was, now, r.n, v, k, flat, m);
        assert SlotDone(now, r.n, v, k, flat, m);
      }
    }
  }

  lemma UntouchedDone(was: seq<byte>, now: seq<byte>, size: nat, s: nat, k: nat, flat: seq<word>, off: nat)
    requires s < SCOOPS_PER_PLOT && off <= k && Fits(|flat|, k - off) && Untouched(was, now, size, s, k)
    ensures SlotDone(was, size, s, k, flat, off) <==> SlotDone(now, size, s, k, flat, off)
  {
    hide SlotRow, SlotAt;
  }

  lemma GoodMeansWritten(plotId: bv64, r: Range, bytes: seq<byte>, m: nat, n: nat, flat: seq<word>)
    requires FileGood(plotId, r, bytes, m + n) && BlockFits(|flat|, n) && BlockHolds(flat, plotId, U64(r.sn + m), n)
    ensures RegionWritten(bytes, r.n, m, n, flat)
  {
    hide SlotHolds, BlockHolds, U64, ReferenceRow, SlotRow;
    forall s, k | 0 <= s < SCOOPS_PER_PLOT && m <= k < m + n ensures SlotDone(bytes, r.n, s, k, flat, m) {
      assert SlotGood(plotId, r, bytes, s, k);
      RowIsReference(flat, plotId, U64(r.sn + m), n, k - m, s);
      NonceAfter(r.sn + m, k - m);
    }
  }

  lemma TornKeepsGood(c: Config, w: nat, s: Sys, cut: Mark, bytes: seq<byte>)
    requires Ordered(c, s) && Contents(c, s) && Enabled(c, s, WriteTorn(w, cut, bytes))
    ensures WriterGood(c, c.plan[w], Torn(s, w, cut, bytes), s.mem)
  {
    hide FileGood, BlockHolds, FilesOk, Contiguous, SlotDone, WrittenUpTo, Commit;
    var wr, t := s.ws[w], s.ws[w].busy.task;
    WritingGood(c, w, s);
    var r, m := c.plan[w][t.file], wr.files[t.file].submitted;
    CutWriteGood(c.plotId, r, wr.disk[t.file], bytes, m, t.n, s.mem[t.block], cut);
    CommitGood(c, c.plan[w], wr, t, bytes, s.mem);
  }

  // ---- every step ------------------------------------------------------------------------

  lemma ContentsStep(c: Config, s: Sys, l: Label)
    requires Accounted(c, s) && Ordered(c, s) && Contents(c, s) && Enabled(c, s, l)
    ensures Contents(c, Apply(c, s, l))
  {
    hide Accounted, Ordered, Contents, Enabled, Apply;
    if l.HashFinish? {
      ContentsHashFinish(c, s, l.data);
    } else if l.Dispatch? {
      ContentsDispatch(c, s, l.block);
    } else if l.WriteFail? {
      ContentsWriteFail(c, s, l.w, l.bytes);
    } else if l.WriteOk? {
      ContentsWriteOk(c, s, l.w, l.bytes);
    } else if l.WriteTorn? {
      ContentsWriteTorn(c, s, l.w, l.cut, l.bytes);
    } else if l.CountUp? {
      ContentsCountUp(c, s);
    } else if ByWriter(l) {
      ContentsByWriter(c, s, l);
    } else {
      ContentsElse(c, s, l);
    }
  }

  /** If one writer at most changes, and memory not at all, it is enough to look at that writer. */
  lemma ContentsFrom(c: Config, s: Sys, after: Sys, w: nat)
    requires Contents(c, s) && w < |s.ws| && |after.ws| == |s.ws| && after.mem == s.mem
    requires forall v | 0 <= v < |s.ws| && v != w :: after.ws[v] == s.ws[v]
    requires WriterGood(c, c.plan[w], after.ws[w], s.mem)
    ensures Contents(c, after)
  {
  }

  lemma ContentsElse(c: Config, s: Sys, l: Label)
    requires Contents(c, s) && Enabled(c, s, l) && (l.Retain? || l.SkipBusy? || l.NoMemory? || l.Stop? || l.HashStart?)
    ensures Contents(c, Apply(c, s, l))
  {
  }

  lemma ContentsCountUp(c: Config, s: Sys)
    requires Contents(c, s) && Enabled(c, s, CountUp)
    ensures Contents(c, Apply(c, s, CountUp))
  {
  }

  lemma WriterGoodShape(c: Config, plan: seq<Range>, wr: Writer, mem: map<nat, seq<word>>)
    requires WriterGood(c, plan, wr, mem)
    ensures |wr.files| == |wr.disk| == |plan|
  {
  }

  lemma ContentsByWriter(c: Config, s: Sys, l: Label)
    requires Contents(c, s) && Enabled(c, s, l) && (l.WriteStart? || l.GiveUp? || l.Report?)
    ensures Contents(c, Apply(c, s, l))
  {
    hide WriterGood;
    var w := l.w;
    var after := Apply(c, s, l);
    assert WriterGood(c, c.plan[w], s.ws[w], s.mem);
    WriterGoodShape(c, c.plan[w], s.ws[w], s.mem);
    forall t | t in Local(after.ws[w]) ensures t in Local(s.ws[w]) {
    }
    GoodSame(c, c.plan[w], s.ws[w], after.ws[w], s.mem);
    ContentsFrom(c, s, after, w);
  }

  lemma ContentsDispatch(c: Config, s: Sys, b: nat)
    requires Ordered(c, s) && Contents(c, s) && Enabled(c, s, Dispatch(b))
    ensures Contents(c, Apply(c, s, Dispatch(b)))
  {
    hide WriterGood, NextPiece, MayDispatch, Contiguous, ForWriter;
    var w := Selected(s);
    var after := Apply(c, s, Dispatch(b));
    assert WriterOk(c, w, s.ws[w], ForWriter(w, Upstream(s)), s.hasher == Counting(w), s.stopped);
    HandOutBooksNothing(s.ws[w], c.workSize);
    assert WriterGood(c, c.plan[w], s.ws[w], s.mem);
    assert Local(after.ws[w]) == Local(s.ws[w]);
    GoodSame(c, c.plan[w], s.ws[w], after.ws[w], s.mem);
    ContentsFrom(c, s, after, w);
  }

  lemma ContentsWriteFail(c: Config, s: Sys, w: nat, bytes: seq<byte>)
    requires Ordered(c, s) && Contents(c, s) && Enabled(c, s, WriteFail(w, bytes))
    ensures Contents(c, Apply(c, s, WriteFail(w, bytes)))
  {
    FailKeepsGood(c, w, s, bytes);
    hide WriterGood, Attempted, Ordered;
    ContentsFrom(c, s, Apply(c, s, WriteFail(w, bytes)), w);
  }

  lemma ContentsWriteOk(c: Config, s: Sys, w: nat, bytes: seq<byte>)
    requires Ordered(c, s) && Contents(c, s) && Enabled(c, s, WriteOk(w, bytes))
    ensures Contents(c, Apply(c, s, WriteOk(w, bytes)))
  {
    OkKeepsGood(c, w, s, bytes);
    hide WriterGood, Attempted, Ordered, Commit;
    ContentsFrom(c, s, Apply(c, s, WriteOk(w, bytes)), w);
  }

  lemma ContentsWriteTorn(c: Config, s: Sys, w: nat, cut: Mark, bytes: seq<byte>)
    requires Ordered(c, s) && Contents(c, s) && Enabled(c, s, WriteTorn(w, cut, bytes))
    ensures Contents(c, Apply(c, s, WriteTorn(w, cut, bytes)))
  {
    TornKeepsGood(c, w, s, cut, bytes);
    hide WriterGood, WrittenUpTo, Ordered, Torn;
    ContentsFrom(c, s, Apply(c, s, WriteTorn(w, cut, bytes)), w);
  }

  lemma ContentsHashFinish(c: Config, s: Sys, data: seq<word>)
    requires Accounted(c, s) && Contents(c, s) && Enabled(c, s, HashFinish(data))
    ensures Contents(c, Apply(c, s, HashFinish(data)))
  {
    hide Accounted, BlockHolds, DiskGood;
    var t := s.hasher.task;
    var after := Apply(c, s, HashFinish(data));
    forall w | 0 <= w < |after.ws| ensures WriterGood(c, c.plan[w], after.ws[w], after.mem) {
      assert WriterGood(c, c.plan[w], s.ws[w], s.mem);
      DiskSame(c, c.plan[w], s.ws[w], after.ws[w]);
      forall u | u in Local(after.ws[w]) ensures InMemory(c, after.mem, u) {
        if u in Local(s.ws[w]) {
          HashedBlockIsApart(c, s, w, u);
          assert InMemory(c, s.mem, u);
        } else {
          assert u == t;
        }
      }
    }
  }

  lemma DiskSame(c: Config, plan: seq<Range>, wr: Writer, x: Writer)
    requires DiskGood(c, plan, wr) && x.disk == wr.disk && x.files == wr.files
    requires x.spoiled == wr.spoiled && x.halted == wr.halted
    ensures DiskGood(c, plan, x)
  {
  }
}
