/** The dispatcher's loop: one turn of it is at most two steps of the pipeline. */
module Dispatcher {
  import opened Tasks
  import opened Pipeline
  import opened Completion

  /** What a turn of the loop ends with. */
  datatype Outcome = Finished | Waiting | Skipped | Refused | NothingThere | Sent

  /** The steps of a turn with this outcome. */
  function StepsOf(popped: bool, outcome: Outcome, block: nat): seq<Label> {
    (if popped then [Retain] else []) +
    match outcome
    case Finished => []
    case Waiting => []
    case Skipped => [SkipBusy]
    case Refused => [NoMemory]
    case NothingThere => [Dispatch(block)]
    case Sent => [Dispatch(block)]
  }

  function Retired(s: Sys): Sys
    requires s.reports != []
  {
    var t := s.reports[0];
    s.(reports := s.reports[1..], free := s.free + {t.block}, used := s.used - {t.block},
       finished := s.finished + t.n, ongoing := s.ongoing - 1)
  }

  /** The single step, if any, that a turn's second half takes. */
  ghost predicate Took(c: Config, s0: Sys, outcome: Outcome, b: nat, s: Sys) {
    var last := StepsOf(false, outcome, b);
    if last == [] then s == s0 else Enabled(c, s0, last[0]) && s == Apply(c, s0, last[0])
  }

  /** The second half of a turn: the guards, the cursor, the block and the next task. */
  method TryDispatch(c: Config, s0: Sys, answer: Option<nat>) returns (s: Sys, outcome: Outcome)
    requires s0.ws != []
    requires answer.Some? ==> Allocatable(s0, answer.value)
    ensures Took(c, s0, outcome, if answer.Some? then answer.value else 0, s)
    ensures outcome == Finished <==> CounterMeets(s0.finished, PlanTotal(c.plan))
    ensures outcome == Waiting <==> !CounterMeets(s0.finished, PlanTotal(c.plan)) && !MayDispatch(c, s0)
    ensures outcome == Refused ==> answer.None?
    ensures outcome == Sent || outcome == NothingThere ==> answer.Some?
    ensures outcome == Sent <==> s.ongoing != s0.ongoing
  {
    hide PlanTotal, CounterMeets, NextPiece, HandOut;
    s := s0;
    if CounterMeets(s.finished, PlanTotal(c.plan)) {
      return s, Finished;
    }
    if CounterMeets(s.dispatched, PlanTotal(c.plan)) || s.ongoing >= c.maxFlying || |s.hq| > 1 {
      return s, Waiting;
    }
    if s.pos >= |s.ws| {
      s := s.(pos := 0);
    }
    var wr := s.ws[s.pos];
    if wr.size != 0 {
      s := s.(pos := s.pos + 1);
      return s, Skipped;
    }
    if answer.None? {
      return s, Refused;
    }
    var b, w := answer.value, s.pos;
    var cut := NextPiece(wr.files, wr.cursor, c.workSize);
    s := s.(ws := s.ws[w := HandOut(wr, cut)], pos := w + 1);
    match cut.piece {
      case None =>
        s := s.(free := s.free + {b});
        return s, NothingThere;
      case Some(p) =>
        s := s.(hq := s.hq + [HashTask(w, p.0, p.1, p.2, b)], free := s.free - {b}, used := s.used + {b},
                dispatched := s.dispatched + p.2, ongoing := s.ongoing + 1);
        return s, Sent;
    }
  }

  /**
   * One turn: retires a report if one was popped, then tries to dispatch one task. The environment
   * says whether a report came within the time limit, and which block, if any, the allocator returns.
   */
  method Turn(c: Config, s0: Sys, popped: bool, answer: Option<nat>) returns (s: Sys, outcome: Outcome)
    requires s0.ws != [] && (popped ==> s0.reports != [])
    requires answer.Some? ==> Allocatable(if popped then Retired(s0) else s0, answer.value)
    ensures Leads(c, s0, StepsOf(popped, outcome, if answer.Some? then answer.value else 0), s)
    ensures outcome == Finished <==> CounterMeets(s.finished, PlanTotal(c.plan))
  {
    hide PlanTotal, CounterMeets, Took;
    s := s0;
    if popped {
      s := Retired(s);
    }
    ghost var mid := s;
    s, outcome := TryDispatch(c, s, answer);
    TookKeepsFinished(c, mid, outcome, if answer.Some? then answer.value else 0, s);
    TurnSteps(c, s0, popped, mid, outcome, if answer.Some? then answer.value else 0, s);
  }

  lemma TookKeepsFinished(c: Config, s0: Sys, outcome: Outcome, b: nat, s: Sys)
    requires Took(c, s0, outcome, b, s)
    ensures s.finished == s0.finished
  {
  }

  /** A turn's steps, put together. */
  lemma TurnSteps(c: Config, s0: Sys, popped: bool, mid: Sys, outcome: Outcome, b: nat, s: Sys)
    requires popped ==> s0.reports != []
    requires mid == if popped then Retired(s0) else s0
    requires Took(c, mid, outcome, b, s)
    ensures Leads(c, s0, StepsOf(popped, outcome, b), s)
  {
  }
}
