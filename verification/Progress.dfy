/** Progress: the work of a run is bounded, and an unfinished run can always go on to completion. */
module Progress {
  import opened Tasks
  import opened Hasher
  import opened WriterWorker
  import opened Pipeline
  import opened PipelineTotals
  import opened WriterProgress
  import opened PipelineSafety
  import opened EndToEnd

  // ---- the measure -------------------------------------------------------------------------

  function WriterStage(wr: Writer): nat {
    4 * |wr.queue| + match wr.busy case Idle => 0 case Writing(_) => 3 case Written(_) => 2
  }

  function StageIn(ws: seq<Writer>): nat {
    if ws == [] then 0 else WriterStage(ws[0]) + StageIn(ws[1..])
  }

  /** How many steps the tasks in flight are away from being retired. */
  function Stage(s: Sys): nat {
    7 * |s.hq| + (match s.hasher case Resting => 0 case Working(_) => 6 case Counting(_) => 1)
    + StageIn(s.ws) + |s.reports|
  }

  function Measure(c: Config, s: Sys): int {
    8 * (PlanTotal(c.plan) - s.dispatched) + Stage(s)
  }

  /** Steps other than waiting: a skipped writer, no memory, a drive without work, a failed write, the stop flag. */
  predicate Productive(c: Config, s: Sys, l: Label) {
    && !l.Stop? && !l.SkipBusy? && !l.NoMemory? && !l.WriteFail?
    && (l.Dispatch? ==> s.ws != [] && Dispatched(c, s, l.block).Some?)
  }

  lemma {:induction false} StageUpdate(ws: seq<Writer>, w: nat, wr: Writer)
    requires w < |ws|
    ensures StageIn(ws[w := wr]) + WriterStage(ws[w]) == StageIn(ws) + WriterStage(wr)
  {
    if w == 0 {
      assert ws[w := wr][1..] == ws[1..];
    } else {
      StageUpdate(ws[1..], w - 1, wr);
      assert ws[w := wr][1..] == ws[1..][w - 1 := wr];
    }
  }

  /** Every productive step lowers the measure, and waiting leaves it alone. */
  lemma MeasureStep(c: Config, s: Sys, l: Label)
    requires Ready(c) && Ordered(c, s) && Enabled(c, s, l)
    ensures if Productive(c, s, l) then Measure(c, Apply(c, s, l)) < Measure(c, s)
            else Measure(c, Apply(c, s, l)) == Measure(c, s)
  {
    hide StageIn, Attempted, BlockHolds, Submit, WriterOk, PlanTotal, ForWriter;
    var after := Apply(c, s, l);
    if l.Dispatch? {
      DispatchMeasure(c, s, l.block);
    } else if l.HashFinish? {
      StageUpdate(s.ws, s.hasher.task.writer, after.ws[s.hasher.task.writer]);
    } else if l.CountUp? {
      StageUpdate(s.ws, s.hasher.writer, after.ws[s.hasher.writer]);
    } else if ByWriter(l) {
      WriterMeasure(c, s, l);
    }
  }

  lemma WriterMeasure(c: Config, s: Sys, l: Label)
    requires Enabled(c, s, l) && ByWriter(l)
    ensures Measure(c, Apply(c, s, l)) == Measure(c, s) - if l.WriteFail? then 0 else 1
  {
    hide StageIn, Attempted, Submit, PlanTotal;
    var after := Apply(c, s, l);
    StageUpdate(s.ws, l.w, after.ws[l.w]);
  }

  lemma DispatchMeasure(c: Config, s: Sys, b: nat)
    requires Ready(c) && Ordered(c, s) && Enabled(c, s, Dispatch(b))
    ensures var after := Apply(c, s, Dispatch(b));
            if Dispatched(c, s, b).Some? then Measure(c, after) < Measure(c, s) else Measure(c, after) == Measure(c, s)
  {
    hide StageIn, WriterOk, PlanTotal, ForWriter, NextPiece;
    var w := Selected(s);
    var after := Apply(c, s, Dispatch(b));
    StageUpdate(s.ws, w, after.ws[w]);
    PieceIsPositive(c, s, w, b);
  }

  lemma PieceIsPositive(c: Config, s: Sys, w: nat, b: nat)
    requires Ready(c) && Ordered(c, s) && s.ws != [] && w == Selected(s)
    ensures Dispatched(c, s, b).Some? ==> Dispatched(c, s, b).value.n > 0
    ensures w < |c.plan| && (Dispatched(c, s, b).None? ==> s.ws[w].handed == SumOf(c.plan[w]))
  {
    hide Contiguous, ForWriter, NextPiece, FilesOk, Position;
    assert WriterOk(c, w, s.ws[w], ForWriter(w, Upstream(s)), s.hasher == Counting(w), s.stopped);
    HandOutKeeps(c.plan[w], s.ws[w], w, c.workSize, b);
    BaseIsSum(c.plan[w]);
  }

  /** How many of the first i steps were productive. */
  ghost function ProductiveSteps(c: Config, states: seq<Sys>, labels: seq<Label>, i: nat): nat
    requires i <= |labels| < |states|
  {
    if i == 0 then 0
    else ProductiveSteps(c, states, labels, i - 1) + if Productive(c, states[i - 1], labels[i - 1]) then 1 else 0
  }

  /** No run, however it is interleaved, has more productive steps than eight per nonce planned. */
  lemma {:induction false} WorkIsBounded(c: Config, states: seq<Sys>, labels: seq<Label>, i: nat)
    requires Ready(c) && IsRun(c, states, labels) && i <= |labels|
    ensures ProductiveSteps(c, states, labels, i) + Measure(c, states[i]) <= 8 * PlanTotal(c.plan)
    ensures Measure(c, states[i]) >= 0
  {
    hide Enabled, Apply, Accounted, Ordered;
    if i == 0 {
      MeasureAtStart(c, states[0]);
    } else {
      WorkIsBounded(c, states, labels, i - 1);
      RunKeeps(c, states, labels, i - 1);
      MeasureStep(c, states[i - 1], labels[i - 1]);
    }
    RunKeeps(c, states, labels, i);
    CountersBounded(c, states[i]);
  }

  lemma MeasureAtStart(c: Config, s: Sys)
    requires Initial(c, s)
    ensures Measure(c, s) == 8 * PlanTotal(c.plan)
  {
    NoStage(s.ws);
  }

  lemma {:induction false} NoStage(ws: seq<Writer>)
    requires forall w | 0 <= w < |ws| :: ws[w].queue == [] && ws[w].busy.Idle?
    ensures StageIn(ws) == 0
  {
    if ws != [] {
      NoStage(ws[1..]);
    }
  }
}
