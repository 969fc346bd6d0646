/** The dispatcher's cursor: how long it waits between two productive steps. */
module RoundRobin {
  import opened GpuPlotter
  import opened Tasks
  import opened Hasher
  import opened WriterWorker
  import opened Pipeline
  import opened PipelineTotals
  import opened WriterProgress
  import opened PipelineSafety
  import opened PipelineContents
  import opened EndToEnd
  import opened Progress
  import opened Completion

  /** The dispatcher would get a task from this writer: it has work left, and its queue counts as empty. */
  ghost predicate Willing(c: Config, s: Sys, w: nat) {
    HasWork(c, s, w) && s.ws[w].size == 0
  }

  /** The dispatcher passes a writer over: its queue counts as not empty, or its drive has no work left. */
  predicate PassesOver(c: Config, s: Sys, l: Label) {
    l.SkipBusy? || (l.Dispatch? && s.ws != [] && Dispatched(c, s, l.block).None?)
  }

  /**
   * A step that is not productive lowers the distance to a willing writer by one if it passes a writer
   * over, and leaves it alone otherwise; the measure of the work stays, and the writer stays willing.
   * So the pair of measure and distance falls in lexicographic order in every step but those of the
   * environment: a refused block, a failed write, the stop flag.
   */
  lemma WaitingStep(c: Config, s: Sys, l: Label, target: nat)
    requires Ready(c) && Ordered(c, s) && Enabled(c, s, l) && !Productive(c, s, l) && Willing(c, s, target)
    ensures var after := Apply(c, s, l);
            && |after.ws| == |s.ws| && Willing(c, after, target)
            && Measure(c, after) == Measure(c, s)
            && Distance(s, target) == Distance(after, target) + if PassesOver(c, s, l) then 1 else 0
  {
    MeasureStep(c, s, l);
    WaitingFields(c, s, l, target);
    hide Enabled, Apply, Ready, Ordered, Productive, Measure, Dispatched, PassesOver, HasWork;
    if PassesOver(c, s, l) {
      OneNearer(s, Apply(c, s, l), target);
    }
  }

  /** What a waiting step does to the cursor and to what makes a writer willing. */
  lemma WaitingFields(c: Config, s: Sys, l: Label, target: nat)
    requires Ready(c) && Ordered(c, s) && Enabled(c, s, l) && !Productive(c, s, l) && Willing(c, s, target)
    ensures var after := Apply(c, s, l);
            && |after.ws| == |s.ws| && Willing(c, after, target)
            && (if PassesOver(c, s, l) then after.pos == Selected(s) + 1 && target != Selected(s)
                else Selected(after) == Selected(s))
  {
    hide SumOf, NextPiece, Ordered, Attempted, MayDispatch, Allocatable, BlockBounds, PlanTotal, CounterMeets, GoodStep;
    if l.Dispatch? {
      PieceIsPositive(c, s, Selected(s), l.block);
      assert HandOut(s.ws[Selected(s)], NextPiece(s.ws[Selected(s)].files, s.ws[Selected(s)].cursor, c.workSize)).handed
          == s.ws[Selected(s)].handed;
    }
  }

  lemma OneNearer(s: Sys, after: Sys, target: nat)
    requires target < |s.ws| == |after.ws| && after.pos == Selected(s) + 1 && target != Selected(s)
    ensures Distance(s, target) == Distance(after, target) + 1
  {
  }

  /** How many writers are passed over between two states of a run. */
  ghost function Passed(c: Config, states: seq<Sys>, labels: seq<Label>, i: nat, j: nat): nat
    requires i <= j <= |labels| < |states|
  {
    if j == i then 0
    else Passed(c, states, labels, i, j - 1) + if PassesOver(c, states[j - 1], labels[j - 1]) then 1 else 0
  }

  /**
   * In every run: in a stretch without a productive step that starts with some writer willing, the
   * dispatcher passes over fewer writers than there are, and each time comes one nearer.
   */
  lemma {:induction false} StretchIsShort(c: Config, states: seq<Sys>, labels: seq<Label>, i: nat, j: nat, target: nat)
    requires Ready(c) && IsRun(c, states, labels) && i <= j <= |labels|
    requires forall k | i <= k < j :: !Productive(c, states[k], labels[k])
    requires Willing(c, states[i], target)
    ensures |states[j].ws| == |states[i].ws| && Willing(c, states[j], target)
    ensures Passed(c, states, labels, i, j) + Distance(states[j], target) == Distance(states[i], target) < |states[i].ws|
    decreases j
  {
    hide Initial, Enabled, Apply, Accounted, Ordered, Contents, Productive, Willing, PassesOver;
    assert target < |states[i].ws| by {
      WillingIsWriter(c, states[i], target);
    }
    if i < j {
      StretchIsShort(c, states, labels, i, j - 1, target);
      RunKeeps(c, states, labels, j - 1);
      assert !Productive(c, states[j - 1], labels[j - 1]);
      WaitingStep(c, states[j - 1], labels[j - 1], target);
    }
  }

  lemma WillingIsWriter(c: Config, s: Sys, w: nat)
    requires Willing(c, s, w)
    ensures w < |s.ws|
  {
  }

  /**
   * With at most one task queued for the hasher, room in flight, nonces left to dispatch, and a block, a
   * willing writer that is selected gets its task.
   */
  lemma WillingIsServed(c: Config, s: Sys, b: nat)
    requires Ready(c) && Ordered(c, s) && s.ws != [] && Willing(c, s, Selected(s))
    requires !CounterMeets(s.finished, PlanTotal(c.plan)) && !CounterMeets(s.dispatched, PlanTotal(c.plan))
    requires |s.hq| <= 1 && s.ongoing < c.maxFlying && Allocatable(s, b)
    ensures Enabled(c, s, Dispatch(b)) && Productive(c, s, Dispatch(b))
  {
    PieceIsPositive(c, s, Selected(s), b);
    hide SumOf, NextPiece, Ordered, CounterMeets, PlanTotal;
  }

  /** The dispatcher keeps at most two tasks waiting for the hasher. */
  lemma {:induction false} HasherQueueIsShort(c: Config, states: seq<Sys>, labels: seq<Label>, i: nat)
    requires IsRun(c, states, labels) && i <= |labels|
    ensures |states[i].hq| <= 2
  {
    hide Enabled, Apply;
    if i > 0 {
      HasherQueueIsShort(c, states, labels, i - 1);
      QueueStep(c, states[i - 1], labels[i - 1]);
    }
  }

  lemma QueueStep(c: Config, s: Sys, l: Label)
    requires Enabled(c, s, l) && |s.hq| <= 2
    ensures |Apply(c, s, l).hq| <= 2
  {
    hide AttemptBy, TornBy, HeldAlready, Commit, Torn, CounterMeets, NextPiece, PlanTotal, BlockHolds;
  }

  /**
   * In every unstopped state that is not finished, some writer is willing, or a thread other than the
   * dispatcher's search has a productive step to take.
   */
  lemma WillingOrBusy(c: Config, s: Sys) returns (target: Option<nat>, l: Label)
    requires Ready(c) && Sound(c, s) && !s.stopped && s.finished != PlanTotal(c.plan)
    ensures if target.Some? then Willing(c, s, target.value)
            else Enabled(c, s, l) && Productive(c, s, l) && !l.Dispatch?
  {
    hide Accounted, Contents, PlanTotal, BlockBounds, CounterMeets;
    l := Stop;
    if Quiet(s) {
      QuietBooks(c, s);
      var w := SomeoneHasWork(c, s);
      QuietSize(c, s, w);
      target := Some(w);
    } else {
      l := SomeoneCanStep(c, s);
      target := None;
    }
  }

  lemma QuietSize(c: Config, s: Sys, w: nat)
    requires Ordered(c, s) && Quiet(s) && w < |s.ws|
    ensures s.ws[w].size == 0
  {
    hide Contiguous, FilesOk, ForWriter;
    assert WriterOk(c, w, s.ws[w], ForWriter(w, Upstream(s)), s.hasher == Counting(w), s.stopped);
  }
}
