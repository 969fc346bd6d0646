/** From every reachable state that has not been stopped, the run can go on until all is finished. */
module Completion {
  import opened Words
  import opened Layout
  import opened Kernel
  import opened GpuPlotter
  import opened Tasks
  import opened Hasher
  import opened WriterWorker
  import opened Pipeline
  import opened PipelineTotals
  import opened WriterProgress
  import opened PipelineSafety
  import opened PipelineContents
  import opened EndToEnd
  import opened Progress
  import opened Possible

  // ---- no state is stuck -----------------------------------------------------------------------

  /** No thread has anything to do but the dispatcher. */
  ghost predicate Quiet(s: Sys) {
    && s.reports == [] && s.hq == [] && s.hasher.Resting?
    && forall w | 0 <= w < |s.ws| :: s.ws[w].queue == [] && s.ws[w].busy.Idle?
  }

  /** Unless all is quiet, some thread has a step to take that brings a task nearer its end. */
  lemma SomeoneCanStep(c: Config, s: Sys) returns (l: Label)
    requires Ready(c) && Sound(c, s) && !s.stopped && !Quiet(s)
    ensures Enabled(c, s, l) && Productive(c, s, l) && !l.WriteTorn? && !l.Dispatch?
  {
    hide Accounted, Contents, WriterOk;
    if s.reports != [] {
      l := Retain;
    } else if s.hasher.Working? {
      var t := s.hasher.task;
      assert t in Upstream(s);
      var groups := WorkSizeInGroups(c);
      var data := BlockCanHold(c.plotId, U64(t.sn), groups, t.n);
      l := HashFinish(data);
    } else if s.hasher.Counting? {
      l := CountUp;
    } else if s.hq != [] {
      l := HashStart;
    } else {
      var w :| 0 <= w < |s.ws| && !(s.ws[w].queue == [] && s.ws[w].busy.Idle?);
      if s.ws[w].busy.Written? {
        l := Report(w);
      } else if s.ws[w].busy.Writing? {
        var bytes := WriteCanHappen(c, s, w);
        l := WriteOk(w, bytes);
      } else {
        NotHalted(c, s, w);
        l := WriteStart(w);
      }
    }
  }

  lemma WorkSizeInGroups(c: Config) returns (groups: nat)
    requires Ready(c)
    ensures c.workSize == 16 * groups <= ADDRESSABLE
  {
    groups := c.parts * (c.gws / 16);
    assert c.gws == 16 * (c.gws / 16);
    InSixteens(c.parts, c.gws, c.gws / 16);
  }

  lemma NotHalted(c: Config, s: Sys, w: nat)
    requires Ordered(c, s) && !s.stopped && w < |s.ws|
    ensures !s.ws[w].halted
  {
  }

  lemma WriteCanHappen(c: Config, s: Sys, w: nat) returns (bytes: seq<byte>)
    requires Ordered(c, s) && Contents(c, s) && w < |s.ws| && s.ws[w].busy.Writing?
    ensures Enabled(c, s, WriteOk(w, bytes))
  {
    hide Contiguous, FilesOk, ForWriter, Attempted, BlockHolds, DiskGood;
    var wr, t := s.ws[w], s.ws[w].busy.task;
    assert WriterOk(c, w, wr, ForWriter(w, Upstream(s)), s.hasher == Counting(w), s.stopped);
    WritingAt(c, w, wr, ForWriter(w, Upstream(s)), s.hasher == Counting(w), s.stopped);
    assert WriterGood(c, c.plan[w], wr, s.mem);
    assert t in Local(wr);
    assert InMemory(c, s.mem, t);
    HeldFits(s.mem[t.block], c.plotId, U64(t.sn), t.n);
    bytes := WriteCanSucceed(wr.disk[t.file], wr.files[t.file].initN, t.sn - wr.files[t.file].initSn, t.n,
                             s.mem[t.block]);
  }

  lemma HeldFits(flat: seq<word>, plotId: bv64, start: bv64, n: nat)
    requires BlockHolds(flat, plotId, start, n)
    ensures BlockFits(|flat|, n)
  {
    hide Fits, ItemSeed, HtonUll;
    forall k | 0 <= k < n ensures Fits(|flat|, k) {
      assert Finished(flat, k, ItemSeed(HtonUll(plotId), start, k));
    }
  }

  // ---- when all is quiet, the dispatcher comes round to a drive with work --------------------

  ghost predicate HasWork(c: Config, s: Sys, w: nat) {
    w < |s.ws| && w < |c.plan| && s.ws[w].handed < SumOf(c.plan[w])
  }

  /** How many writers the cursor passes before it selects w. */
  function Distance(s: Sys, w: nat): nat
    requires s.ws != [] && w < |s.ws|
  {
    if w >= Selected(s) then w - Selected(s) else w + |s.ws| - Selected(s)
  }

  lemma QuietBooks(c: Config, s: Sys)
    requires Accounted(c, s) && Quiet(s)
    ensures s.ongoing == 0 && s.used == {} && s.finished == s.dispatched
  {
    NothingWaiting(One, s.ws);
    NothingWaiting(Nonces, s.ws);
  }

  /** As long as not all is finished, neither counter meets the total. */
  lemma NotSeen(c: Config, s: Sys)
    requires Ready(c) && Accounted(c, s) && Ordered(c, s) && Quiet(s) && s.finished != PlanTotal(c.plan)
    ensures !CounterMeets(s.finished, PlanTotal(c.plan)) && !CounterMeets(s.dispatched, PlanTotal(c.plan))
  {
    QuietBooks(c, s);
    CountersBounded(c, s);
    CountersSeeTheEnd(PlanTotal(c.plan));
    hide Accounted, Ordered, PlanTotal, CounterMeets, Quiet;
  }

  /** If all is quiet and not finished, the dispatcher may dispatch from whatever writer it selects. */
  lemma QuietDispatch(c: Config, s: Sys) returns (b: nat)
    requires Ready(c) && Accounted(c, s) && Ordered(c, s) && Quiet(s) && s.finished != PlanTotal(c.plan)
    ensures s.ws != [] && Enabled(c, s, Dispatch(b))
  {
    hide Contiguous, FilesOk, ForWriter, PlanTotal, CounterMeets, BlockBounds, GoodStep;
    QuietBooks(c, s);
    NotSeen(c, s);
    hide Accounted;
    var w := Selected(s);
    assert WriterOk(c, w, s.ws[w], ForWriter(w, Upstream(s)), s.hasher == Counting(w), s.stopped);
    if s.free == {} {
      b := 4096;
    } else {
      b :| b in s.free;
    }
  }

  lemma {:induction false} AllHandedIsTotal(plan: seq<seq<Range>>, ws: seq<Writer>)
    requires |ws| == |plan| && forall w | 0 <= w < |ws| :: ws[w].handed == SumOf(plan[w])
    ensures HandedIn(ws) == PlanTotal(plan)
  {
    if ws != [] {
      AllHandedIsTotal(plan[1..], ws[1..]);
    }
  }

  /** As long as not all is dispatched, some writer has work. */
  lemma SomeoneHasWork(c: Config, s: Sys) returns (w: nat)
    requires Accounted(c, s) && Ordered(c, s) && s.dispatched != PlanTotal(c.plan)
    ensures HasWork(c, s, w)
  {
    hide InFlight;
    HandedWithinPlan(c, s);
    if forall v | 0 <= v < |s.ws| :: s.ws[v].handed == SumOf(c.plan[v]) {
      AllHandedIsTotal(c.plan, s.ws);
      assert false;
    } else {
      w :| 0 <= w < |s.ws| && s.ws[w].handed != SumOf(c.plan[w]);
    }
  }

  // ---- completion ---------------------------------------------------------------------------------

  /** A stretch of a run without torn writes that leads from one state to another. */
  ghost predicate Leads(c: Config, s: Sys, labels: seq<Label>, end: Sys)
    decreases |labels|
  {
    if labels == [] then s == end
    else Enabled(c, s, labels[0]) && !labels[0].WriteTorn? && Leads(c, Apply(c, s, labels[0]), labels[1..], end)
  }

  lemma LeadsStep(c: Config, s: Sys, l: Label, labels: seq<Label>, end: Sys)
    requires Enabled(c, s, l) && !l.WriteTorn? && Leads(c, Apply(c, s, l), labels, end)
    ensures Leads(c, s, [l] + labels, end)
  {
  }

  /** A productive step keeps an unstopped state unstopped, and brings the end nearer. */
  lemma StepOnward(c: Config, s: Sys, l: Label)
    requires Ready(c) && Sound(c, s) && !s.stopped && Enabled(c, s, l) && !l.WriteTorn? && !l.Stop?
    ensures Sound(c, Apply(c, s, l)) && !Apply(c, s, l).stopped
    ensures Measure(c, Apply(c, s, l)) >= 0
    ensures if Productive(c, s, l) then Measure(c, Apply(c, s, l)) < Measure(c, s)
            else Measure(c, Apply(c, s, l)) == Measure(c, s)
  {
    SoundStep(c, s, l);
    MeasureStep(c, s, l);
    NotStoppedBy(c, s, l);
    hide Accounted, Ordered, Contents, Enabled, Apply;
    CountersBounded(c, Apply(c, s, l));
  }

  lemma NotStoppedBy(c: Config, s: Sys, l: Label)
    requires Enabled(c, s, l) && !l.Stop? && !s.stopped
    ensures !Apply(c, s, l).stopped
  {
  }

  /** A dispatch that finds no work leaves all quiet, and brings a drive with work one nearer. */
  lemma PassedOver(c: Config, s: Sys, b: nat, target: nat)
    requires Ready(c) && Ordered(c, s) && Quiet(s) && HasWork(c, s, target)
    requires Enabled(c, s, Dispatch(b)) && Dispatched(c, s, b).None?
    ensures var after := Apply(c, s, Dispatch(b));
            && Quiet(after) && HasWork(c, after, target) && after.finished == s.finished && |after.ws| == |s.ws|
            && Distance(after, target) < Distance(s, target)
  {
    hide SumOf, NextPiece, WriterOk, ForWriter, MayDispatch;
    PieceIsPositive(c, s, Selected(s), b);
    assert target != Selected(s);
    var after := Apply(c, s, Dispatch(b));
    assert after.pos == Selected(s) + 1;
    assert forall w | 0 <= w < |s.ws| :: after.ws[w].queue == s.ws[w].queue && after.ws[w].busy == s.ws[w].busy;
    assert after.ws[target].handed == s.ws[target].handed;
  }

  /** Toward a drive with work: either it is selected, or the one before it is passed over. */
  lemma {:induction false} FinishToward(c: Config, s: Sys, target: nat) returns (labels: seq<Label>, end: Sys)
    requires Ready(c) && Sound(c, s) && !s.stopped && Quiet(s) && HasWork(c, s, target)
    requires s.finished != PlanTotal(c.plan) && Measure(c, s) >= 0
    ensures Leads(c, s, labels, end) && end.finished == PlanTotal(c.plan) && !end.stopped
    decreases Measure(c, s), 0, Distance(s, target)
  {
    hide Accounted, Ordered, Contents, Enabled, Apply, Measure, PlanTotal, Productive, Distance, Quiet, Dispatched;
    var b := QuietDispatch(c, s);
    var l := Dispatch(b);
    StepOnward(c, s, l);
    var next := Apply(c, s, l);
    if Productive(c, s, l) {
      labels, end := Finish(c, next);
    } else {
      NoWorkThere(c, s, b);
      PassedOver(c, s, b, target);
      labels, end := FinishToward(c, next, target);
    }
    LeadsStep(c, s, l, labels, end);
    labels := [l] + labels;
  }

  lemma NoWorkThere(c: Config, s: Sys, b: nat)
    requires s.ws != [] && !Productive(c, s, Dispatch(b))
    ensures Dispatched(c, s, b).None?
  {
  }

  /**
   * Completion is always possible: from every sound state without a stop, some continuation without
   * failures ends with everything finished. So no such state is stuck.
   */
  lemma {:induction false} Finish(c: Config, s: Sys) returns (labels: seq<Label>, end: Sys)
    requires Ready(c) && Sound(c, s) && !s.stopped && Measure(c, s) >= 0
    ensures Leads(c, s, labels, end) && end.finished == PlanTotal(c.plan) && !end.stopped
    decreases Measure(c, s), 1, 0
  {
    hide Accounted, Ordered, Contents, Enabled, Apply, Measure, PlanTotal, Productive, Quiet;
    if s.finished == PlanTotal(c.plan) {
      return [], s;
    }
    if Quiet(s) {
      QuietBooks(c, s);
      var target := SomeoneHasWork(c, s);
      labels, end := FinishToward(c, s, target);
    } else {
      var l := SomeoneCanStep(c, s);
      NotStop(c, s, l);
      StepOnward(c, s, l);
      labels, end := Finish(c, Apply(c, s, l));
      LeadsStep(c, s, l, labels, end);
      labels := [l] + labels;
    }
  }

  lemma NotStop(c: Config, s: Sys, l: Label)
    requires Productive(c, s, l)
    ensures !l.Stop?
  {
  }

  // ---- whole runs -----------------------------------------------------------------------------------

  /** A stretch after a run makes a longer run. */
  lemma {:induction false} RunGoesOn(c: Config, states: seq<Sys>, labels: seq<Label>, more: seq<Label>, end: Sys)
    returns (all: seq<Sys>)
    requires IsRun(c, states, labels) && Leads(c, states[|labels|], more, end)
    ensures IsRun(c, all, labels + more) && states <= all && all[|labels| + |more|] == end
    decreases |more|
  {
    hide Initial, Enabled, Apply;
    if more == [] {
      assert labels + more == labels;
      all := states;
    } else {
      var next := Apply(c, states[|labels|], more[0]);
      OneStepOn(c, states, labels, more[0]);
      assert (states + [next])[|labels + [more[0]]|] == next;
      all := RunGoesOn(c, states + [next], labels + [more[0]], more[1..], end);
      assert labels + [more[0]] + more[1..] == labels + more;
    }
  }

  lemma OneStepOn(c: Config, states: seq<Sys>, labels: seq<Label>, l: Label)
    requires IsRun(c, states, labels) && Enabled(c, states[|labels|], l)
    ensures IsRun(c, states + [Apply(c, states[|labels|], l)], labels + [l])
  {
    hide Initial, Enabled, Apply;
    var longer, more := states + [Apply(c, states[|labels|], l)], labels + [l];
    forall i | 0 <= i < |more| ensures Enabled(c, longer[i], more[i]) && longer[i + 1] == Apply(c, longer[i], more[i]) {
      if i < |labels| {
        assert Enabled(c, states[i], labels[i]) && states[i + 1] == Apply(c, states[i], labels[i]);
      }
    }
  }

  lemma RunSoFar(c: Config, states: seq<Sys>, labels: seq<Label>, i: nat)
    requires IsRun(c, states, labels) && i <= |labels|
    ensures IsRun(c, states[..i + 1], labels[..i])
  {
    hide Initial, Enabled, Apply;
  }

  /**
   * For whole runs: up to any state that has not been stopped, the run can be continued to one that
   * ends with everything finished and every file complete, correct and renamed once. The dispatcher
   * sees that end exactly if the total is below 2^31.
   */
  lemma EveryRunCanComplete(c: Config, states: seq<Sys>, labels: seq<Label>, i: nat)
    returns (all: seq<Sys>, more: seq<Label>)
    requires Ready(c) && IsRun(c, states, labels) && i <= |labels| && !states[i].stopped
    ensures IsRun(c, all, labels[..i] + more) && states[..i + 1] <= all
    ensures var end := all[i + |more|];
            && Sound(c, end) && !end.stopped && end.finished == PlanTotal(c.plan)
            && (forall w, f | 0 <= w < |c.plan| && 0 <= f < |c.plan[w]| :: Complete(c, end, w, f))
            && (CounterMeets(end.finished, PlanTotal(c.plan)) <==> PlanTotal(c.plan) < 0x8000_0000)
  {
    hide Initial, Enabled, Apply, Accounted, Ordered, Contents, Complete, PlanTotal, Measure, Leads, CounterMeets,
         BlockBounds, GoodStep;
    RunSoFar(c, states, labels, i);
    RunKeeps(c, states, labels, i);
    MeasureNotNegative(c, states[i]);
    var end: Sys;
    more, end := Finish(c, states[i]);
    all := RunGoesOn(c, states[..i + 1], labels[..i], more, end);
    RunKeeps(c, all, labels[..i] + more, i + |more|);
    forall w, f | 0 <= w < |c.plan| && 0 <= f < |c.plan[w]| ensures Complete(c, end, w, f) {
      FinishedIsComplete(c, end, w, f);
    }
    EndIsSeen(PlanTotal(c.plan));
  }

  lemma MeasureNotNegative(c: Config, s: Sys)
    requires Sound(c, s)
    ensures Measure(c, s) >= 0
  {
    hide Accounted, Ordered, Contents;
    CountersBounded(c, s);
  }

  lemma EndIsSeen(total: nat)
    requires total < 0x8000_0000_0000_0000
    ensures CounterMeets(total, total) <==> total < 0x8000_0000
  {
    CountersSeeTheEnd(total);
  }
}
