/** What every run keeps, whatever fails and whenever it is stopped. */
module PipelineSafety {
  import opened Words
  import opened Tasks
  import opened Hasher
  import opened WriterWorker
  import opened Pipeline
  import opened PipelineTotals
  import opened WriterProgress

  // ---- the books ---------------------------------------------------------------------------

  function HandedIn(ws: seq<Writer>): nat {
    if ws == [] then 0 else ws[0].handed + HandedIn(ws[1..])
  }

  lemma {:induction false} HandedUpdate(ws: seq<Writer>, w: nat, wr: Writer)
    requires w < |ws|
    ensures HandedIn(ws[w := wr]) + ws[w].handed == HandedIn(ws) + wr.handed
  {
    if w == 0 {
      assert ws[w := wr][1..] == ws[1..];
    } else {
      HandedUpdate(ws[1..], w - 1, wr);
      assert ws[w := wr][1..] == ws[1..][w - 1 := wr];
    }
  }

  /**
   * Each used block carries exactly one task in flight, and no other block carries any; the number
   * of tasks in flight, and their nonces, are what the dispatcher's counters say.
   */
  ghost predicate Accounted(c: Config, s: Sys) {
    && (forall b :: InFlight(OnBlock(b), s) == if b in s.used then 1 else 0)
    && InFlight(One, s) == s.ongoing == |s.used|
    && InFlight(Nonces, s) + s.finished == s.dispatched
    && HandedIn(s.ws) == s.dispatched
    && s.free !! s.used
    && |s.free| + |s.used| <= c.maxFlying
  }

  lemma AccountedAtStart(c: Config, s: Sys)
    requires Initial(c, s)
    ensures Accounted(c, s)
  {
    forall k: Kind ensures InFlight(k, s) == 0 {
      NothingWaiting(k, s.ws);
    }
    NothingHanded(s.ws);
  }

  lemma {:induction false} NothingHanded(ws: seq<Writer>)
    requires forall w | 0 <= w < |ws| :: ws[w].handed == 0
    ensures HandedIn(ws) == 0
  {
    if ws != [] {
      NothingHanded(ws[1..]);
    }
  }

  /** The books stay right in every step. */
  lemma AccountedStep(c: Config, s: Sys, l: Label)
    requires Ready(c) && Accounted(c, s) && Enabled(c, s, l)
    ensures Accounted(c, Apply(c, s, l))
  {
    hide Accounted, Enabled, Apply;
    CountsAfter(c, s, l);
    HandedAfter(c, s, l);
    if l.Retain? {
      AccountedRetain(c, s);
    } else if l.Dispatch? {
      AccountedDispatch(c, s, l.block);
    } else {
      AccountedOtherwise(c, s, l);
    }
  }

  /** How all counts change. */
  ghost predicate Counted(c: Config, s: Sys, l: Label, after: Sys)
    requires l.Dispatch? ==> s.ws != []
    requires l.Retain? ==> s.reports != []
  {
    forall k: Kind :: InFlight(k, after) == InFlight(k, s) + Change(c, s, l, k)
  }

  lemma CountsAfter(c: Config, s: Sys, l: Label)
    requires Enabled(c, s, l)
    ensures Counted(c, s, l, Apply(c, s, l))
  {
    hide InFlight, Apply, Change;
    forall k: Kind ensures InFlight(k, Apply(c, s, l)) == InFlight(k, s) + Change(c, s, l, k) {
      CountAfter(c, s, l, k);
    }
  }

  lemma AccountedRetain(c: Config, s: Sys)
    requires Accounted(c, s) && Enabled(c, s, Retain)
    requires Counted(c, s, Retain, Apply(c, s, Retain)) && HandedIn(Apply(c, s, Retain).ws) == HandedIn(s.ws)
    ensures Accounted(c, Apply(c, s, Retain))
  {
    hide InFlight, HandedIn;
    RetiredIsUsed(c, s);
    var after := Apply(c, s, Retain);
    var t := s.reports[0];
    forall b ensures InFlight(OnBlock(b), after) == if b in after.used then 1 else 0 {
    }
    assert InFlight(Nonces, after) == InFlight(Nonces, s) - t.n;
    assert InFlight(One, after) == InFlight(One, s) - 1;
    assert |after.used| == |s.used| - 1;
  }

  lemma AccountedDispatch(c: Config, s: Sys, b: nat)
    requires Accounted(c, s) && Enabled(c, s, Dispatch(b))
    requires Counted(c, s, Dispatch(b), Apply(c, s, Dispatch(b)))
    requires HandedIn(Apply(c, s, Dispatch(b)).ws) == HandedIn(s.ws) + Change(c, s, Dispatch(b), Nonces)
    ensures Accounted(c, Apply(c, s, Dispatch(b)))
  {
    hide InFlight, HandedIn, MayDispatch, Allocatable, Apply, Dispatched;
    var after := Apply(c, s, Dispatch(b));
    var task := Dispatched(c, s, b);
    assert forall k: Kind :: Change(c, s, Dispatch(b), k) == if task.None? then 0 else Weight(k, task.value);
    DispatchedFields(c, s, b);
    if task.None? {
      BooksSame(c, s, after);
    } else {
      BooksPlus(c, s, after, task.value, b);
    }
  }

  /** What a dispatch does to the books' fields. */
  lemma DispatchedFields(c: Config, s: Sys, b: nat)
    requires Enabled(c, s, Dispatch(b)) && s.free !! s.used && |s.used| == s.ongoing && |s.free| + |s.used| <= c.maxFlying
    ensures var after := Apply(c, s, Dispatch(b));
            && after.finished == s.finished
            && b !in s.used
            && |s.free| + |s.used| <= c.maxFlying
            && match Dispatched(c, s, b)
               case None =>
                 && after.used == s.used && after.ongoing == s.ongoing && after.dispatched == s.dispatched
                 && after.free !! s.used && |after.free| + |s.used| <= c.maxFlying
               case Some(t) =>
                 && after.used == s.used + {b} && after.ongoing == s.ongoing + 1
                 && after.dispatched == s.dispatched + t.n && t.block == b
                 && after.free !! after.used && |after.free| + |s.used| + 1 <= c.maxFlying
  {
    hide NextPiece, HandOut;
    BlockFreed(s.free, b);
    BlockTaken(s.free, b);
  }

  lemma BlockTaken(free: set<nat>, b: nat)
    ensures |free - {b}| == |free| - if b in free then 1 else 0
  {
  }

  lemma BooksSame(c: Config, s: Sys, after: Sys)
    requires Accounted(c, s) && forall k: Kind :: InFlight(k, after) == InFlight(k, s)
    requires HandedIn(after.ws) == HandedIn(s.ws) && after.used == s.used && after.ongoing == s.ongoing
    requires after.finished == s.finished && after.dispatched == s.dispatched
    requires after.free !! s.used && |after.free| + |s.used| <= c.maxFlying
    ensures Accounted(c, after)
  {
  }

  lemma BooksPlus(c: Config, s: Sys, after: Sys, t: HashTask, b: nat)
    requires Accounted(c, s) && forall k: Kind :: InFlight(k, after) == InFlight(k, s) + Weight(k, t)
    requires HandedIn(after.ws) == HandedIn(s.ws) + t.n && after.used == s.used + {b} && t.block == b && b !in s.used
    requires after.finished == s.finished && after.dispatched == s.dispatched + t.n && after.ongoing == s.ongoing + 1
    requires after.free !! after.used && |after.free| + |s.used| + 1 <= c.maxFlying
    ensures Accounted(c, after)
  {
  }

  lemma BlockFreed(free: set<nat>, b: nat)
    ensures |free + {b}| == |free| + if b in free then 0 else 1
  {
    if b in free {
      assert free + {b} == free;
    }
  }

  lemma AccountedOtherwise(c: Config, s: Sys, l: Label)
    requires Accounted(c, s) && Enabled(c, s, l) && !l.Dispatch? && !l.Retain?
    requires Counted(c, s, l, Apply(c, s, l)) && HandedIn(Apply(c, s, l).ws) == HandedIn(s.ws)
    ensures Accounted(c, Apply(c, s, l))
  {
    hide InFlight, HandedIn, Attempted, BlockHolds, Commit;
    var after := Apply(c, s, l);
    forall k: Kind ensures InFlight(k, after) == InFlight(k, s) {
      assert Change(c, s, l, k) == 0;
    }
    assert after.used == s.used && after.free == s.free;
  }

  lemma RetiredIsUsed(c: Config, s: Sys)
    requires Accounted(c, s) && s.reports != []
    ensures s.reports[0].block in s.used
  {
  }

  lemma HandedAfter(c: Config, s: Sys, l: Label)
    requires Enabled(c, s, l)
    ensures HandedIn(Apply(c, s, l).ws) == HandedIn(s.ws) + if l.Dispatch? then Change(c, s, l, Nonces) else 0
  {
    hide HandedIn, Attempted, BlockHolds, NextPiece, Submit;
    var after := Apply(c, s, l);
    if l.Dispatch? {
      HandedUpdate(s.ws, Selected(s), after.ws[Selected(s)]);
    } else if l.HashFinish? {
      HandedUpdate(s.ws, s.hasher.task.writer, after.ws[s.hasher.task.writer]);
    } else if l.CountUp? {
      HandedUpdate(s.ws, s.hasher.writer, after.ws[s.hasher.writer]);
    } else if ByWriter(l) {
      HandedUpdate(s.ws, l.w, after.ws[l.w]);
    }
  }

  // ---- the order in which a writer gets its tasks -----------------------------------------

  /** Tasks on their way to the hasher and in it, in the order of dispatch. */
  function Upstream(s: Sys): seq<HashTask> {
    (if s.hasher.Working? then [s.hasher.task] else []) + s.hq
  }

  function ForWriter(w: nat, ts: seq<HashTask>): seq<HashTask> {
    if ts == [] then []
    else (if ts[0].writer == w then [ts[0]] else []) + ForWriter(w, ts[1..])
  }

  /** What a writer still has to write of what has reached it. */
  function Local(wr: Writer): seq<HashTask> {
    (if wr.busy.Writing? then [wr.busy.task] else []) + wr.queue
  }

  /** All that is still to be written for a writer, in order. */
  function Pending(s: Sys, w: nat): seq<HashTask>
    requires w < |s.ws|
  {
    Local(s.ws[w]) + ForWriter(w, Upstream(s))
  }

  lemma {:induction false} ForWriterAppend(w: nat, ts: seq<HashTask>, t: HashTask)
    ensures ForWriter(w, ts + [t]) == ForWriter(w, ts) + if t.writer == w then [t] else []
  {
    if ts == [] {
      assert ts + [t] == [t];
      assert [t][1..] == [];
    } else {
      ForWriterAppend(w, ts[1..], t);
      assert (ts + [t])[1..] == ts[1..] + [t];
    }
  }

  /**
   * One writer is in order: its files agree with the positions, and, unless it has given up, what is
   * pending runs from the written to the handed position without gap. counting says that the size
   * counter of its queue is one behind.
   */
  ghost predicate WriterOk(c: Config, w: nat, wr: Writer, upstream: seq<HashTask>, counting: bool, stopped: bool)
    requires w < |c.plan|
  {
    && FilesOk(c.plan[w], wr)
    && (!wr.halted ==> Contiguous(c.plan[w], Local(wr) + upstream, wr.written, wr.handed))
    && (wr.halted ==> stopped && !wr.busy.Writing?)
    && wr.size == |wr.queue| - (if counting then 1 else 0)
    && (forall t | t in Local(wr) :: t.writer == w)
  }

  ghost predicate Ordered(c: Config, s: Sys) {
    && |s.ws| == |c.plan|
    && (forall w | 0 <= w < |s.ws| ::
          WriterOk(c, w, s.ws[w], ForWriter(w, Upstream(s)), s.hasher == Counting(w), s.stopped))
    && (forall t | t in Upstream(s) :: t.writer < |c.plan| && t.n <= c.workSize)
    && (s.hasher.Counting? ==> s.hasher.writer < |c.plan|)
  }

  lemma OrderedAtStart(c: Config, s: Sys)
    requires Ready(c) && Initial(c, s)
    ensures Ordered(c, s)
  {
  }

  lemma HandedOutOk(c: Config, w: nat, wr: Writer, up: seq<HashTask>, counting: bool, stopped: bool, b: nat)
    requires Ready(c) && w < |c.plan| && WriterOk(c, w, wr, up, counting, stopped)
    ensures var cut := NextPiece(wr.files, wr.cursor, c.workSize);
            match cut.piece
            case None => WriterOk(c, w, HandOut(wr, cut), up, counting, stopped)
            case Some(p) =>
              && p.2 <= c.workSize
              && WriterOk(c, w, HandOut(wr, cut), up + [HashTask(w, p.0, p.1, p.2, b)], counting, stopped)
  {
    hide NextPiece, FilesOk, Contiguous, PieceOf, Position;
    HandOutKeeps(c.plan[w], wr, w, c.workSize, b);
    var cut := NextPiece(wr.files, wr.cursor, c.workSize);
    if cut.piece.Some? && !wr.halted {
      var t := HashTask(w, cut.piece.value.0, cut.piece.value.1, cut.piece.value.2, b);
      ContiguousAppend(c.plan[w], Local(wr) + up, wr.written, wr.handed, t);
      assert Local(wr) + (up + [t]) == Local(wr) + up + [t];
    }
  }

  lemma PushedOk(c: Config, w: nat, wr: Writer, up: seq<HashTask>, t: HashTask, stopped: bool)
    requires w < |c.plan| && t.writer == w && WriterOk(c, w, wr, [t] + up, false, stopped)
    ensures WriterOk(c, w, Push(wr, t), up, true, stopped)
  {
    hide Contiguous;
    assert Local(Push(wr, t)) == Local(wr) + [t];
    assert Local(wr) + ([t] + up) == Local(Push(wr, t)) + up;
    FilesSame(c.plan[w], wr, Push(wr, t));
    hide FilesOk;
  }

  /** Only files, disk, renames, the cursor and the positions matter to FilesOk. */
  lemma FilesSame(plan: seq<Range>, wr: Writer, x: Writer)
    requires FilesOk(plan, wr) && x.files == wr.files && x.renames == wr.renames && x.cursor == wr.cursor
    requires |x.disk| == |wr.disk| && x.handed == wr.handed && x.written == wr.written
    ensures FilesOk(plan, x)
  {
    hide Covered, Base;
    forall f | 0 <= f < |plan| ensures FileIs(plan, x, f) {
      assert FileIs(plan, wr, f);
    }
  }

  lemma CountedOk(c: Config, w: nat, wr: Writer, up: seq<HashTask>, stopped: bool)
    requires w < |c.plan| && WriterOk(c, w, wr, up, true, stopped)
    ensures WriterOk(c, w, wr.(size := wr.size + 1), up, false, stopped)
  {
    FilesSame(c.plan[w], wr, wr.(size := wr.size + 1));
    hide FilesOk, Contiguous;
  }

  lemma PoppedOk(c: Config, w: nat, wr: Writer, up: seq<HashTask>, counting: bool, stopped: bool)
    requires w < |c.plan| && WriterOk(c, w, wr, up, counting, stopped) && wr.busy.Idle? && wr.queue != [] && !wr.halted
    ensures WriterOk(c, w, Pop(wr), up, counting, stopped)
  {
    FilesSame(c.plan[w], wr, Pop(wr));
    hide FilesOk, Contiguous;
    assert Local(Pop(wr)) == Local(wr);
  }

  lemma FailedOk(c: Config, w: nat, wr: Writer, up: seq<HashTask>, counting: bool, stopped: bool,
                 f: nat, bytes: seq<byte>)
    requires w < |c.plan| && WriterOk(c, w, wr, up, counting, stopped) && f < |wr.disk|
    ensures WriterOk(c, w, Overwrite(wr, f, bytes), up, counting, stopped)
  {
    FilesSame(c.plan[w], wr, Overwrite(wr, f, bytes));
    hide FilesOk, Contiguous;
    assert Local(Overwrite(wr, f, bytes)) == Local(wr);
  }

  /** The task being written is the next one on the line. */
  lemma WritingIsNext(c: Config, w: nat, wr: Writer, up: seq<HashTask>, counting: bool, stopped: bool)
    requires w < |c.plan| && WriterOk(c, w, wr, up, counting, stopped) && wr.busy.Writing?
    ensures PieceOf(c.plan[w], wr.busy.task) && Position(c.plan[w], wr.busy.task) == wr.written
    ensures Contiguous(c.plan[w], wr.queue + up, wr.written + wr.busy.task.n, wr.handed)
  {
    hide FilesOk, Position, PieceOf;
    var ts := Local(wr) + up;
    assert ts[0] == wr.busy.task;
    assert ts[1..] == wr.queue + up;
  }

  lemma CommittedOk(c: Config, w: nat, wr: Writer, up: seq<HashTask>, counting: bool, stopped: bool, bytes: seq<byte>)
    requires w < |c.plan| && WriterOk(c, w, wr, up, counting, stopped) && wr.busy.Writing?
    requires HasFile(wr, wr.busy.task.file)
    ensures WriterOk(c, w, Commit(wr, wr.busy.task, bytes), up, counting, stopped)
  {
    WritingIsNext(c, w, wr, up, counting, stopped);
    CommitKeeps(c.plan[w], wr, wr.busy.task, bytes);
    hide FilesOk, Contiguous, Submit;
    var x := Commit(wr, wr.busy.task, bytes);
    assert Local(x) == wr.queue;
  }

  lemma GaveUpOk(c: Config, w: nat, wr: Writer, up: seq<HashTask>, counting: bool)
    requires w < |c.plan| && WriterOk(c, w, wr, up, counting, true) && wr.busy.Writing?
    ensures WriterOk(c, w, wr.(busy := Written(wr.busy.task), halted := true), up, counting, true)
  {
    FilesSame(c.plan[w], wr, wr.(busy := Written(wr.busy.task), halted := true));
    hide FilesOk, Contiguous;
  }

  lemma HaltedOk(c: Config, w: nat, wr: Writer, up: seq<HashTask>, counting: bool, spoiled: Option<nat>)
    requires w < |c.plan| && WriterOk(c, w, wr, up, counting, true) && wr.busy.Written?
    ensures WriterOk(c, w, wr.(halted := true, spoiled := spoiled), up, counting, true)
  {
    FilesSame(c.plan[w], wr, wr.(halted := true, spoiled := spoiled));
    hide FilesOk, Contiguous;
  }

  lemma ReportedOk(c: Config, w: nat, wr: Writer, up: seq<HashTask>, counting: bool, stopped: bool)
    requires w < |c.plan| && WriterOk(c, w, wr, up, counting, stopped) && wr.busy.Written?
    ensures WriterOk(c, w, wr.(busy := Idle), up, counting, stopped)
  {
    FilesSame(c.plan[w], wr, wr.(busy := Idle));
    hide FilesOk, Contiguous;
    assert Local(wr.(busy := Idle)) == Local(wr);
  }

  // ---- every step keeps the order ----------------------------------------------------------

  lemma OrderedStep(c: Config, s: Sys, l: Label)
    requires Ready(c) && Ordered(c, s) && Enabled(c, s, l)
    ensures Ordered(c, Apply(c, s, l))
  {
    hide Ordered, Apply, Enabled;
    if l.Dispatch? {
      OrderedDispatch(c, s, l.block);
    } else if l.HashStart? {
      OrderedHashStart(c, s);
    } else if l.HashFinish? {
      OrderedHashFinish(c, s, l.data);
    } else if l.CountUp? {
      OrderedCountUp(c, s);
    } else if ByWriter(l) {
      OrderedByWriter(c, s, l);
    } else {
      OrderedElse(c, s, l);
    }
  }

  lemma OrderedElse(c: Config, s: Sys, l: Label)
    requires Ordered(c, s) && Enabled(c, s, l) && (l.Retain? || l.SkipBusy? || l.NoMemory? || l.Stop?)
    ensures Ordered(c, Apply(c, s, l))
  {
    hide FilesOk, Contiguous, ForWriter, Local;
    var after := Apply(c, s, l);
    assert Upstream(after) == Upstream(s);
    forall w | 0 <= w < |after.ws|
      ensures WriterOk(c, w, after.ws[w], ForWriter(w, Upstream(after)), after.hasher == Counting(w), after.stopped)
    {
      assert WriterOk(c, w, s.ws[w], ForWriter(w, Upstream(s)), s.hasher == Counting(w), s.stopped);
    }
  }

  lemma OrderedDispatch(c: Config, s: Sys, b: nat)
    requires Ready(c) && Ordered(c, s) && Enabled(c, s, Dispatch(b))
    ensures Ordered(c, Apply(c, s, Dispatch(b)))
  {
    hide WriterOk, NextPiece, MayDispatch, ForWriter, HandOut;
    var v := Selected(s);
    var after := Apply(c, s, Dispatch(b));
    var task := Dispatched(c, s, b);
    var more := if task.None? then [] else [task.value];
    assert Upstream(after) == Upstream(s) + more;
    HandedOutOk(c, v, s.ws[v], ForWriter(v, Upstream(s)), s.hasher == Counting(v), s.stopped, b) by {
      assert WriterOk(c, v, s.ws[v], ForWriter(v, Upstream(s)), s.hasher == Counting(v), s.stopped);
    }
    forall w | 0 <= w < |after.ws|
      ensures WriterOk(c, w, after.ws[w], ForWriter(w, Upstream(after)), after.hasher == Counting(w), after.stopped)
    {
      assert WriterOk(c, w, s.ws[w], ForWriter(w, Upstream(s)), s.hasher == Counting(w), s.stopped);
      if task.Some? {
        ForWriterAppend(w, Upstream(s), task.value);
      } else {
        assert Upstream(after) == Upstream(s);
      }
      if w != v {
        assert task.Some? ==> ForWriter(w, Upstream(after)) == ForWriter(w, Upstream(s)) + [];
        assert ForWriter(w, Upstream(after)) == ForWriter(w, Upstream(s));
      }
    }
  }

  lemma OrderedHashStart(c: Config, s: Sys)
    requires Ordered(c, s) && Enabled(c, s, HashStart)
    ensures Ordered(c, Apply(c, s, HashStart))
  {
    hide WriterOk, ForWriter;
    var after := Apply(c, s, HashStart);
    assert Upstream(after) == Upstream(s);
    forall w | 0 <= w < |after.ws|
      ensures WriterOk(c, w, after.ws[w], ForWriter(w, Upstream(after)), after.hasher == Counting(w), after.stopped)
    {
      assert WriterOk(c, w, s.ws[w], ForWriter(w, Upstream(s)), s.hasher == Counting(w), s.stopped);
    }
  }

  lemma OrderedHashFinish(c: Config, s: Sys, data: seq<word>)
    requires Ordered(c, s) && Enabled(c, s, HashFinish(data))
    ensures Ordered(c, Apply(c, s, HashFinish(data)))
  {
    hide WriterOk, BlockHolds;
    var t := s.hasher.task;
    var after := Apply(c, s, HashFinish(data));
    var v := t.writer;
    assert Upstream(s) == [t] + Upstream(after);
    assert Upstream(s)[1..] == Upstream(after);
    PushedOk(c, v, s.ws[v], ForWriter(v, Upstream(after)), t, s.stopped) by {
      assert WriterOk(c, v, s.ws[v], ForWriter(v, Upstream(s)), s.hasher == Counting(v), s.stopped);
    }
    forall w | 0 <= w < |after.ws|
      ensures WriterOk(c, w, after.ws[w], ForWriter(w, Upstream(after)), after.hasher == Counting(w), after.stopped)
    {
      assert WriterOk(c, w, s.ws[w], ForWriter(w, Upstream(s)), s.hasher == Counting(w), s.stopped);
      assert w != v ==> ForWriter(w, Upstream(after)) == ForWriter(w, Upstream(s));
    }
  }

  lemma OrderedCountUp(c: Config, s: Sys)
    requires Ordered(c, s) && Enabled(c, s, CountUp)
    ensures Ordered(c, Apply(c, s, CountUp))
  {
    hide WriterOk, ForWriter;
    var after := Apply(c, s, CountUp);
    var v := s.hasher.writer;
    assert Upstream(after) == Upstream(s);
    CountedOk(c, v, s.ws[v], ForWriter(v, Upstream(s)), s.stopped);
    forall w | 0 <= w < |after.ws|
      ensures WriterOk(c, w, after.ws[w], ForWriter(w, Upstream(after)), after.hasher == Counting(w), after.stopped)
    {
      assert WriterOk(c, w, s.ws[w], ForWriter(w, Upstream(s)), s.hasher == Counting(w), s.stopped);
    }
  }

  lemma OrderedByWriter(c: Config, s: Sys, l: Label)
    requires Ordered(c, s) && ByWriter(l) && Enabled(c, s, l)
    ensures Ordered(c, Apply(c, s, l))
  {
    hide WriterOk, ForWriter, Attempted, WrittenUpTo, HeldAlready, Overwrite, Pop, Submit;
    var after := Apply(c, s, l);
    var v := l.w;
    var up, counting := ForWriter(v, Upstream(s)), s.hasher == Counting(v);
    assert Upstream(after) == Upstream(s);
    assert WriterOk(c, v, s.ws[v], up, counting, s.stopped);
    match l {
      case WriteStart(_) => PoppedOk(c, v, s.ws[v], up, counting, s.stopped);
      case WriteFail(_, bytes) => FailedOk(c, v, s.ws[v], up, counting, s.stopped, s.ws[v].busy.task.file, bytes);
      case WriteOk(_, bytes) => CommittedOk(c, v, s.ws[v], up, counting, s.stopped, bytes);
      case WriteTorn(_, cut, bytes) =>
        CommittedOk(c, v, s.ws[v], up, counting, s.stopped, bytes);
        HaltedOk(c, v, Commit(s.ws[v], s.ws[v].busy.task, bytes), up, counting, Torn(s, v, cut, bytes).spoiled);
      case GiveUp(_) => GaveUpOk(c, v, s.ws[v], up, counting);
      case Report(_) => ReportedOk(c, v, s.ws[v], up, counting, s.stopped);
    }
    forall w | 0 <= w < |after.ws|
      ensures WriterOk(c, w, after.ws[w], ForWriter(w, Upstream(after)), after.hasher == Counting(w), after.stopped)
    {
      assert WriterOk(c, w, s.ws[w], ForWriter(w, Upstream(s)), s.hasher == Counting(w), s.stopped);
    }
  }
}
