/** The theorems about whole runs. */
module EndToEnd {
  import opened Words
  import opened CpuPlotter
  import opened Transposition
  import opened PlotFile
  import opened Tasks
  import opened Hasher
  import opened WriterWorker
  import opened Pipeline
  import opened PipelineTotals
  import opened WriterProgress
  import opened PipelineSafety
  import opened PipelineContents

  /** Everything that holds in every state of every run. */
  ghost predicate Sound(c: Config, s: Sys) {
    Accounted(c, s) && Ordered(c, s) && Contents(c, s)
  }

  lemma SoundStep(c: Config, s: Sys, l: Label)
    requires Ready(c) && Sound(c, s) && Enabled(c, s, l)
    ensures Sound(c, Apply(c, s, l))
  {
    hide Accounted, Ordered, Contents, Enabled, Apply;
    AccountedStep(c, s, l);
    OrderedStep(c, s, l);
    ContentsStep(c, s, l);
  }

  /** The books, the order and the contents hold in every state of every run. */
  lemma {:induction false} RunKeeps(c: Config, states: seq<Sys>, labels: seq<Label>, i: nat)
    requires Ready(c) && IsRun(c, states, labels) && i <= |labels|
    ensures Sound(c, states[i])
  {
    hide Accounted, Ordered, Contents, Initial, Enabled, Apply;
    if i == 0 {
      AccountedAtStart(c, states[0]);
      OrderedAtStart(c, states[0]);
      ContentsAtStart(c, states[0]);
    } else {
      RunKeeps(c, states, labels, i - 1);
      SoundStep(c, states[i - 1], labels[i - 1]);
    }
  }

  // ---- renamed files ------------------------------------------------------------------------------

  /** File f of writer w has been renamed from its temporary to its final name. */
  ghost predicate Renamed(s: Sys, w: nat, f: nat) {
    w < |s.ws| && HasFile(s.ws[w], f) && s.ws[w].renames[f] > 0
  }

  /** Byte b of scoop s of the file's nonce k is where it belongs, and is the one that the CPU computes. */
  ghost predicate ByteGood(plotId: bv64, r: Range, bytes: seq<byte>, s: nat, k: nat, b: nat)
    requires s < SCOOPS_PER_PLOT && b < 64
  {
    && (s * r.n + k) * 64 + b < |bytes|
    && bytes[(s * r.n + k) * 64 + b] == PlotByte(plotId, U64(r.sn + k), 64 * s + b)
  }

  /** The file holds, scoop by scoop, the plots that the CPU computes for its nonces. */
  ghost predicate IsPlot(plotId: bv64, r: Range, bytes: seq<byte>) {
    forall s, k, b | 0 <= s < SCOOPS_PER_PLOT && 0 <= k < r.n && 0 <= b < 64 :: ByteGood(plotId, r, bytes, s, k, b)
  }

  lemma SlotByBytes(plotId: bv64, r: Range, bytes: seq<byte>, s: nat, k: nat)
    requires s < SCOOPS_PER_PLOT
    ensures SlotGood(plotId, r, bytes, s, k) <==> forall b | 0 <= b < 64 :: ByteGood(plotId, r, bytes, s, k, b)
  {
    hide PlotByte, U64;
    var at, row := SlotAt(r.n, s, k), ReferenceRow(plotId, U64(r.sn + k), s);
    if forall b | 0 <= b < 64 :: ByteGood(plotId, r, bytes, s, k, b) {
      assert ByteGood(plotId, r, bytes, s, k, 63);
      SliceIs(bytes, at, row) by {
        forall b | 0 <= b < 64 ensures bytes[at + b] == row[b] {
          assert ByteGood(plotId, r, bytes, s, k, b);
        }
      }
    }
    if SlotGood(plotId, r, bytes, s, k) {
      forall b | 0 <= b < 64 ensures ByteGood(plotId, r, bytes, s, k, b) {
        ElementOfSlice(bytes, at, row, b);
      }
    }
  }

  lemma ElementOfSlice(bytes: seq<byte>, at: nat, row: seq<byte>, b: nat)
    requires at + |row| <= |bytes| && bytes[at..at + |row|] == row && b < |row|
    ensures bytes[at + b] == row[b]
  {
  }

  lemma SliceIs(bytes: seq<byte>, at: nat, row: seq<byte>)
    requires at + |row| <= |bytes| && forall b | 0 <= b < |row| :: bytes[at + b] == row[b]
    ensures bytes[at..at + |row|] == row
  {
  }

  /** Row by row and byte by byte are the same. */
  lemma GoodFileIsPlot(plotId: bv64, r: Range, bytes: seq<byte>)
    ensures FileGood(plotId, r, bytes, r.n) <==> IsPlot(plotId, r, bytes)
  {
    hide SlotGood, ByteGood;
    forall s, k | 0 <= s < SCOOPS_PER_PLOT && 0 <= k < r.n
      ensures SlotGood(plotId, r, bytes, s, k) <==> forall b | 0 <= b < 64 :: ByteGood(plotId, r, bytes, s, k, b)
    {
      SlotByBytes(plotId, r, bytes, s, k);
    }
    if FileGood(plotId, r, bytes, r.n) {
      forall s, k, b | 0 <= s < SCOOPS_PER_PLOT && 0 <= k < r.n && 0 <= b < 64
        ensures ByteGood(plotId, r, bytes, s, k, b)
      {
        assert SlotGood(plotId, r, bytes, s, k);
      }
    }
    if IsPlot(plotId, r, bytes) {
      forall s, k | 0 <= s < SCOOPS_PER_PLOT && 0 <= k < r.n ensures SlotGood(plotId, r, bytes, s, k) {
        assert forall b | 0 <= b < 64 :: ByteGood(plotId, r, bytes, s, k, b);
      }
    }
  }

  /** In one state: a renamed file has been renamed once, and holds its plots unless it is spoiled. */
  lemma RenamedIsGood(c: Config, s: Sys, w: nat, f: nat)
    requires Ordered(c, s) && Contents(c, s) && Renamed(s, w, f) && w < |c.plan| && f < |c.plan[w]|
    ensures s.ws[w].renames[f] == 1
    ensures IsPlot(c.plotId, c.plan[w][f], s.ws[w].disk[f]) <==> s.ws[w].spoiled != Some(f)
  {
    hide Contiguous, Base, Covered, FileGood, InMemory, IsPlot;
    assert WriterOk(c, w, s.ws[w], ForWriter(w, Upstream(s)), s.hasher == Counting(w), s.stopped);
    assert FileIs(c.plan[w], s.ws[w], f);
    assert WriterGood(c, c.plan[w], s.ws[w], s.mem);
    GoodFileIsPlot(c.plotId, c.plan[w][f], s.ws[w].disk[f]);
  }

  /**
   * The step is a write to file f of writer w that a stop has cut off although some slot from the cut
   * on did not hold its row before: the guard that ended the loops, and the file as it then was.
   */
  ghost predicate Spoils(s: Sys, l: Label, w: nat, f: nat) {
    && l.WriteTorn? && l.w == w
    && IsWriting(s, w) && s.ws[w].busy.task.file == f
    && TornBy(s, w, s.ws[w].busy.task, l.bytes, l.cut)
    && !HeldAlready(s, w, s.ws[w].busy.task, l.cut)
  }

  lemma SpoiledStep(c: Config, s: Sys, l: Label, w: nat, f: nat)
    requires Ready(c) && Sound(c, s) && Enabled(c, s, l) && w < |s.ws|
    ensures |Apply(c, s, l).ws| == |s.ws|
    ensures Apply(c, s, l).ws[w].spoiled == Some(f) <==> s.ws[w].spoiled == Some(f) || Spoils(s, l, w, f)
  {
    if l.WriteTorn? && l.w == w {
      WritingGood(c, w, s);
      hide WrittenUpTo, HeldAlready, Submit, Sound, Ready;
    } else {
      OthersStayUnspoiled(c, s, l, w);
      hide Enabled, Apply, Sound, Ready;
    }
  }

  lemma OthersStayUnspoiled(c: Config, s: Sys, l: Label, w: nat)
    requires Enabled(c, s, l) && w < |s.ws| && !(l.WriteTorn? && l.w == w)
    ensures |Apply(c, s, l).ws| == |s.ws| && Apply(c, s, l).ws[w].spoiled == s.ws[w].spoiled
  {
    hide WrittenUpTo, HeldAlready, Submit, NextPiece, Attempted, BlockHolds, PlanTotal, CounterMeets;
  }

  /** What spoils files over a run is exactly that. */
  lemma {:induction false} SpoiledIff(c: Config, states: seq<Sys>, labels: seq<Label>, i: nat, w: nat, f: nat)
    requires Ready(c) && IsRun(c, states, labels) && i <= |labels| && w < |c.plan|
    ensures |states[i].ws| == |c.plan|
    ensures states[i].ws[w].spoiled == Some(f) <==> exists j | 0 <= j < i :: Spoils(states[j], labels[j], w, f)
  {
    hide Enabled, Apply, Sound, Spoils;
    if i > 0 {
      SpoiledIff(c, states, labels, i - 1, w, f);
      RunKeeps(c, states, labels, i - 1);
      SpoiledStep(c, states[i - 1], labels[i - 1], w, f);
      if Spoils(states[i - 1], labels[i - 1], w, f) {
        assert exists j | 0 <= j < i :: Spoils(states[j], labels[j], w, f);
      }
    }
  }

  /**
   * The main result. In every run, with any number of failed attempts and whatever the files held
   * before: file f of writer w, of N nonces from sn on, is renamed at most once; and once it is, byte
   * b of scoop s of nonce k stands at (s * N + k) * 64 + b and is byte 64 * s + b of the plot that the
   * CPU computes for nonce sn + k, for all s, k and b, if and only if no write to it was cut off by a
   * stop with rows missing from the cut on.
   */
  lemma RenamedFileIsThePlot(c: Config, states: seq<Sys>, labels: seq<Label>, i: nat, w: nat, f: nat)
    requires Ready(c) && IsRun(c, states, labels) && i <= |labels|
    requires w < |c.plan| && f < |c.plan[w]| && Renamed(states[i], w, f)
    ensures states[i].ws[w].renames[f] == 1
    ensures IsPlot(c.plotId, c.plan[w][f], states[i].ws[w].disk[f])
        <==> !exists j | 0 <= j < i :: Spoils(states[j], labels[j], w, f)
  {
    hide Initial, Enabled, Apply, Accounted, Ordered, Contents, IsPlot, Spoils, Ready;
    RunKeeps(c, states, labels, i);
    RenamedIsGood(c, states[i], w, f);
    SpoiledIff(c, states, labels, i, w, f);
  }

  /** In particular, in a run in which no write is cut off, each byte of a renamed file is right. */
  lemma RenamedByteIsRight(c: Config, states: seq<Sys>, labels: seq<Label>, i: nat, w: nat, f: nat,
                           s: nat, k: nat, b: nat)
    requires Ready(c) && IsRun(c, states, labels) && NoTornWrite(labels) && i <= |labels|
    requires w < |c.plan| && f < |c.plan[w]| && Renamed(states[i], w, f)
    requires s < SCOOPS_PER_PLOT && k < c.plan[w][f].n && b < 64
    ensures var r, bytes := c.plan[w][f], states[i].ws[w].disk[f];
            && (s * r.n + k) * 64 + b < |bytes|
            && bytes[(s * r.n + k) * 64 + b] == PlotByte(c.plotId, U64(r.sn + k), 64 * s + b)
  {
    hide Initial, Enabled, Apply, PlotByte, U64, Ready;
    RenamedFileIsThePlot(c, states, labels, i, w, f);
    assert ByteGood(c.plotId, c.plan[w][f], states[i].ws[w].disk[f], s, k, b);
  }

  // ---- completion --------------------------------------------------------------------------------

  lemma {:induction false} CountIsLength(plan: seq<Range>, ts: seq<HashTask>, from: nat, to: nat)
    requires Contiguous(plan, ts, from, to)
    ensures InSeq(Nonces, ts) == to - from
  {
    if ts != [] {
      CountIsLength(plan, ts[1..], from + ts[0].n, to);
    }
  }

  lemma {:induction false} InSeqSum(k: Kind, x: seq<HashTask>, y: seq<HashTask>)
    ensures InSeq(k, x + y) == InSeq(k, x) + InSeq(k, y)
  {
    if x == [] {
      assert x + y == y;
    } else {
      InSeqSum(k, x[1..], y);
      assert (x + y)[1..] == x[1..] + y;
    }
  }

  lemma {:induction false} OneWritersShare(k: Kind, w: nat, ts: seq<HashTask>)
    ensures InSeq(k, ForWriter(w, ts)) <= InSeq(k, ts)
  {
    if ts != [] {
      OneWritersShare(k, w, ts[1..]);
      InSeqSum(k, if ts[0].writer == w then [ts[0]] else [], ForWriter(w, ts[1..]));
      assert InSeq(k, [ts[0]]) == Weight(k, ts[0]) by {
        assert [ts[0]][1..] == [];
      }
    }
  }

  /** What is pending for a writer is in flight. */
  lemma PendingIsInFlight(k: Kind, s: Sys, w: nat)
    requires w < |s.ws|
    ensures InSeq(k, Pending(s, w)) <= InFlight(k, s)
  {
    hide InSeq, Weight, ForWriter, InWriters;
    InSeqSum(k, Local(s.ws[w]), ForWriter(w, Upstream(s)));
    OneWritersShare(k, w, Upstream(s));
    InOneWriter(k, s.ws, w);
    InSeqSum(k, if s.hasher.Working? then [s.hasher.task] else [], s.hq);
    InSeqSum(k, if s.ws[w].busy.Writing? then [s.ws[w].busy.task] else [], s.ws[w].queue);
    if s.hasher.Working? {
      Singleton(k, s.hasher.task);
    } else {
      Nothing(k);
    }
    if s.ws[w].busy.Writing? {
      Singleton(k, s.ws[w].busy.task);
    } else {
      Nothing(k);
    }
  }

  lemma Singleton(k: Kind, t: HashTask)
    ensures InSeq(k, [t]) == Weight(k, t)
  {
  }

  lemma Nothing(k: Kind)
    ensures InSeq(k, []) == 0
  {
  }

  /** Nobody is handed more than is planned, so all is handed out only if each has got everything. */
  lemma {:induction false} AllHanded(plan: seq<seq<Range>>, ws: seq<Writer>)
    requires |ws| == |plan| && forall w | 0 <= w < |ws| :: ws[w].handed <= SumOf(plan[w])
    ensures HandedIn(ws) <= PlanTotal(plan)
    ensures HandedIn(ws) == PlanTotal(plan) ==> forall w | 0 <= w < |ws| :: ws[w].handed == SumOf(plan[w])
  {
    if ws != [] {
      AllHanded(plan[1..], ws[1..]);
      if HandedIn(ws) == PlanTotal(plan) {
        forall w | 0 <= w < |ws| ensures ws[w].handed == SumOf(plan[w]) {
          if w > 0 {
            assert ws[1..][w - 1].handed == SumOf(plan[1..][w - 1]);
          }
        }
      }
    }
  }

  lemma HandedWithinPlan(c: Config, s: Sys)
    requires Ordered(c, s)
    ensures |s.ws| == |c.plan| && forall w | 0 <= w < |s.ws| :: s.ws[w].handed <= SumOf(c.plan[w])
  {
    hide Contiguous, FileIs;
    forall w | 0 <= w < |s.ws| ensures s.ws[w].handed <= SumOf(c.plan[w]) {
      assert WriterOk(c, w, s.ws[w], ForWriter(w, Upstream(s)), s.hasher == Counting(w), s.stopped);
      BaseIsSum(c.plan[w]);
    }
  }

  /** Counters never run past the plan. */
  lemma CountersBounded(c: Config, s: Sys)
    requires Accounted(c, s) && Ordered(c, s)
    ensures s.finished <= s.dispatched <= PlanTotal(c.plan)
  {
    hide InFlight;
    HandedWithinPlan(c, s);
    AllHanded(c.plan, s.ws);
  }

  /** What the tasks of all writers have not handed out yet. */
  function Undispatched(ws: seq<Writer>): nat {
    if ws == [] then 0 else LeftIn(ws[0].files) + Undispatched(ws[1..])
  }

  lemma {:induction false} HandedAndLeft(plan: seq<seq<Range>>, ws: seq<Writer>)
    requires |ws| == |plan| && forall w | 0 <= w < |ws| :: FilesOk(plan[w], ws[w])
    ensures HandedIn(ws) + Undispatched(ws) == PlanTotal(plan)
  {
    hide FilesOk, LeftIn;
    if ws != [] {
      LeftIsRest(plan[0], ws[0]);
      HandedAndLeft(plan[1..], ws[1..]);
    }
  }

  /** In every state of every run, what was dispatched and what is left in the writers' tasks is the total. */
  lemma DispatchedAndLeft(c: Config, states: seq<Sys>, labels: seq<Label>, i: nat)
    requires Ready(c) && IsRun(c, states, labels) && i <= |labels|
    ensures states[i].dispatched + Undispatched(states[i].ws) == PlanTotal(c.plan)
  {
    hide Ready, InFlight, FilesOk, PlanTotal, Undispatched, HandedIn, Contents, Initial, Enabled, Apply;
    RunKeeps(c, states, labels, i);
    var s := states[i];
    forall w | 0 <= w < |s.ws| ensures FilesOk(c.plan[w], s.ws[w]) {
      assert WriterOk(c, w, s.ws[w], ForWriter(w, Upstream(s)), s.hasher == Counting(w), s.stopped);
    }
    HandedAndLeft(c.plan, s.ws);
  }

  /** Nothing in flight and no writer stopped: everything handed out has been written. */
  lemma NothingPending(c: Config, s: Sys, w: nat)
    requires Accounted(c, s) && Ordered(c, s) && InFlight(Nonces, s) == 0 && w < |s.ws| && !s.stopped
    ensures w < |c.plan| && s.ws[w].written == s.ws[w].handed && FilesOk(c.plan[w], s.ws[w])
  {
    hide InFlight, Contiguous, FilesOk;
    assert WriterOk(c, w, s.ws[w], ForWriter(w, Upstream(s)), s.hasher == Counting(w), s.stopped);
    var wr := s.ws[w];
    CountIsLength(c.plan[w], Pending(s, w), wr.written, wr.handed);
    PendingIsInFlight(Nonces, s, w);
    ContiguousBounds(c.plan[w], Pending(s, w), wr.written, wr.handed);
  }

  /**
   * Below 2^31 nonces the 32-bit counters are as good as unbounded ones: the comparison holds exactly
   * when all is finished. From there on no count up to the total ever meets it.
   */
  lemma CountersSeeTheEnd(total: nat)
    requires total < 0x8000_0000_0000_0000
    ensures total < 0x8000_0000 ==> forall x: nat | x <= total :: CounterMeets(x, total) <==> x == total
    ensures (exists x: nat :: x <= total && CounterMeets(x, total)) <==> total < 0x8000_0000
  {
    if total < 0x8000_0000 {
      forall x: nat | x <= total ensures CounterMeets(x, total) <==> x == total {
        assert Int32(x) == x;
      }
      assert CounterMeets(total, total);
    } else {
      forall x: nat | x <= total ensures !CounterMeets(x, total) {
        NeverMeets(Int32(x), total);
      }
    }
  }

  lemma NeverMeets(y: int, total: nat)
    requires -0x8000_0000 <= y < 0x8000_0000 <= total < 0x8000_0000_0000_0000
    ensures y % 0x1_0000_0000_0000_0000 != total
  {
    if y < 0 {
      assert y % 0x1_0000_0000_0000_0000 == y + 0x1_0000_0000_0000_0000;
    }
  }

  /**
   * Completion is exact. Unless a stop was raised, when the dispatcher sees its finished count meet
   * the total, every file has been written completely and correctly, and renamed exactly once.
   */
  lemma FinishedMeansAllRenamed(c: Config, states: seq<Sys>, labels: seq<Label>, i: nat, w: nat, f: nat)
    requires Ready(c) && IsRun(c, states, labels) && i <= |labels| && !states[i].stopped
    requires CounterMeets(states[i].finished, PlanTotal(c.plan))
    requires w < |c.plan| && f < |c.plan[w]|
    ensures Complete(c, states[i], w, f)
  {
    hide Initial, Enabled, Apply, Accounted, Ordered, Contents, PlanTotal, CounterMeets, Complete, BlockBounds;
    RunKeeps(c, states, labels, i);
    CountersBounded(c, states[i]);
    CountersSeeTheEnd(PlanTotal(c.plan));
    FinishedIsComplete(c, states[i], w, f);
  }

  /** The file has been written completely and correctly, and renamed exactly once. */
  ghost predicate Complete(c: Config, s: Sys, w: nat, f: nat)
    requires w < |c.plan| && f < |c.plan[w]|
  {
    && |s.ws| == |c.plan| && HasFile(s.ws[w], f)
    && s.ws[w].renames[f] == 1 && s.ws[w].files[f].submitted == c.plan[w][f].n
    && IsPlot(c.plotId, c.plan[w][f], s.ws[w].disk[f])
  }

  lemma FinishedIsComplete(c: Config, s: Sys, w: nat, f: nat)
    requires Sound(c, s) && !s.stopped && s.finished == PlanTotal(c.plan)
    requires w < |c.plan| && f < |c.plan[w]|
    ensures Complete(c, s, w, f)
  {
    hide Accounted, Ordered, Contents, IsPlot;
    FinishedIsRenamed(c, s, w, f);
    RenamedIsGood(c, s, w, f);
    UnstoppedIsUnspoiled(c, s, w);
  }

  lemma UnstoppedIsUnspoiled(c: Config, s: Sys, w: nat)
    requires Ordered(c, s) && Contents(c, s) && !s.stopped && w < |s.ws|
    ensures s.ws[w].spoiled == None
  {
    hide Contiguous, FilesOk, FileGood, InMemory;
    assert WriterOk(c, w, s.ws[w], ForWriter(w, Upstream(s)), s.hasher == Counting(w), s.stopped);
    assert WriterGood(c, c.plan[w], s.ws[w], s.mem);
  }

  lemma FinishedIsRenamed(c: Config, s: Sys, w: nat, f: nat)
    requires Accounted(c, s) && Ordered(c, s) && !s.stopped && s.finished == PlanTotal(c.plan)
    requires w < |c.plan| && f < |c.plan[w]|
    ensures |s.ws| == |c.plan| && HasFile(s.ws[w], f)
    ensures s.ws[w].renames[f] == 1 && s.ws[w].files[f].submitted == c.plan[w][f].n
  {
    hide InFlight, Ordered;
    CountersBounded(c, s);
    HandedWithinPlan(c, s);
    AllHanded(c.plan, s.ws);
    assert InFlight(Nonces, s) == 0;
    NothingPending(c, s, w);
    BaseIsSum(c.plan[w]);
    CoveredAtEnd(c.plan[w], f);
    hide Base, Covered;
    assert FileIs(c.plan[w], s.ws[w], f);
  }

  // ---- order of writing ------------------------------------------------------------------------

  /** A writer gets its tasks file by file, and in ascending order within a file. */
  lemma TasksAscend(c: Config, states: seq<Sys>, labels: seq<Label>, i: nat, w: nat, j: nat, m: nat)
    requires Ready(c) && IsRun(c, states, labels) && i <= |labels|
    requires w < |states[i].ws| && !states[i].ws[w].halted && j < m < |Pending(states[i], w)|
    ensures var t, u := Pending(states[i], w)[j], Pending(states[i], w)[m];
            t.file < u.file || (t.file == u.file && t.sn + t.n <= u.sn)
  {
    RunKeeps(c, states, labels, i);
    hide Accounted, Contiguous, FilesOk, InFlight;
    var s := states[i];
    assert WriterOk(c, w, s.ws[w], ForWriter(w, Upstream(s)), s.hasher == Counting(w), s.stopped);
    ContiguousAscends(c.plan[w], Pending(s, w), s.ws[w].written, s.ws[w].handed, m);
    LaterIsLaterFile(c.plan[w], Pending(s, w)[j], Pending(s, w)[m]);
  }

  /** When a writer works on a file, all earlier files of it are complete and renamed. */
  lemma FileSwitchClosesFinishedFile(c: Config, states: seq<Sys>, labels: seq<Label>, i: nat, w: nat, g: nat)
    requires Ready(c) && IsRun(c, states, labels) && i <= |labels|
    requires w < |states[i].ws| && states[i].ws[w].busy.Writing? && g < states[i].ws[w].busy.task.file
    ensures HasFile(states[i].ws[w], g)
    ensures states[i].ws[w].files[g].submitted == states[i].ws[w].files[g].initN && states[i].ws[w].renames[g] == 1
  {
    RunKeeps(c, states, labels, i);
    hide Accounted, Contiguous, InFlight;
    var s := states[i];
    assert WriterOk(c, w, s.ws[w], ForWriter(w, Upstream(s)), s.hasher == Counting(w), s.stopped);
    WritingIsNext(c, w, s.ws[w], ForWriter(w, Upstream(s)), s.hasher == Counting(w), s.stopped);
    EarlierFilesDone(c.plan[w], s.ws[w], s.ws[w].busy.task, g);
  }
}
