/** Counting the tasks in flight: every task is in one place, on a block of its own. */
module PipelineTotals {
  import opened Tasks
  import opened Hasher
  import opened WriterWorker
  import opened Pipeline

  /** What to count of each task: the task, its nonces, or whether it is on a given block. */
  datatype Kind = One | Nonces | OnBlock(b: nat)

  function Weight(k: Kind, t: HashTask): nat {
    match k
    case One => 1
    case Nonces => t.n
    case OnBlock(b) => if t.block == b then 1 else 0
  }

  function InSeq(k: Kind, ts: seq<HashTask>): nat {
    if ts == [] then 0 else Weight(k, ts[0]) + InSeq(k, ts[1..])
  }

  function InBusy(k: Kind, b: WriterBusy): nat {
    match b
    case Idle => 0
    case Writing(t) => Weight(k, t)
    case Written(t) => Weight(k, t)
  }

  function InHasher(k: Kind, h: HasherBusy): nat {
    match h
    case Resting => 0
    case Working(t) => Weight(k, t)
    case Counting(_) => 0
  }

  function InWriter(k: Kind, wr: Writer): nat {
    InSeq(k, wr.queue) + InBusy(k, wr.busy)
  }

  function InWriters(k: Kind, ws: seq<Writer>): nat {
    if ws == [] then 0 else InWriter(k, ws[0]) + InWriters(k, ws[1..])
  }

  /** The count over all places a dispatched task can be in until it is retired. */
  function InFlight(k: Kind, s: Sys): nat {
    InSeq(k, s.hq) + InHasher(k, s.hasher) + InWriters(k, s.ws) + InSeq(k, s.reports)
  }

  lemma {:induction false} InSeqAppend(k: Kind, ts: seq<HashTask>, t: HashTask)
    ensures InSeq(k, ts + [t]) == InSeq(k, ts) + Weight(k, t)
  {
    if ts == [] {
      assert ts + [t] == [t];
      assert [t][1..] == [];
    } else {
      InSeqAppend(k, ts[1..], t);
      assert (ts + [t])[1..] == ts[1..] + [t];
    }
  }

  lemma {:induction false} InWritersUpdate(k: Kind, ws: seq<Writer>, w: nat, wr: Writer)
    requires w < |ws|
    ensures InWriters(k, ws[w := wr]) + InWriter(k, ws[w]) == InWriters(k, ws) + InWriter(k, wr)
  {
    if w == 0 {
      assert ws[w := wr][1..] == ws[1..];
    } else {
      InWritersUpdate(k, ws[1..], w - 1, wr);
      assert ws[w := wr][1..] == ws[1..][w - 1 := wr];
    }
  }

  lemma {:induction false} NothingWaiting(k: Kind, ws: seq<Writer>)
    requires forall w | 0 <= w < |ws| :: ws[w].queue == [] && ws[w].busy == Idle
    ensures InWriters(k, ws) == 0
  {
    if ws != [] {
      NothingWaiting(k, ws[1..]);
    }
  }

  /** The task that a dispatch makes, if the selected writer has a piece left. */
  function Dispatched(c: Config, s: Sys, b: nat): Option<HashTask>
    requires s.ws != []
  {
    var w := Selected(s);
    match NextPiece(s.ws[w].files, s.ws[w].cursor, c.workSize).piece
    case None => None
    case Some(p) => Some(HashTask(w, p.0, p.1, p.2, b))
  }

  /** How each step changes each count: a dispatch adds one task, a retirement takes one away. */
  function Change(c: Config, s: Sys, l: Label, k: Kind): int
    requires l.Dispatch? ==> s.ws != []
    requires l.Retain? ==> s.reports != []
  {
    var none: int := 0;
    match l
    case Dispatch(b) => (match Dispatched(c, s, b) case None => none case Some(t) => Weight(k, t))
    case Retain => none - Weight(k, s.reports[0])
    case _ => none
  }

  predicate ByWriter(l: Label) {
    l.WriteStart? || l.WriteFail? || l.WriteOk? || l.WriteTorn? || l.GiveUp? || l.Report?
  }

  lemma WriterCount(c: Config, s: Sys, l: Label, k: Kind)
    requires ByWriter(l) && Enabled(c, s, l)
    ensures InFlight(k, Apply(c, s, l)) == InFlight(k, s)
  {
    hide InSeq, Attempted, WrittenUpTo, HeldAlready, Weight, InWriters, Submit;
    var after := Apply(c, s, l);
    InWritersUpdate(k, s.ws, l.w, after.ws[l.w]);
    if l.WriteStart? {
      Head(k, s.ws[l.w].queue);
    } else if l.Report? {
      InSeqAppend(k, s.reports, s.ws[l.w].busy.task);
    }
  }

  lemma CountAfter(c: Config, s: Sys, l: Label, k: Kind)
    requires Enabled(c, s, l)
    ensures InFlight(k, Apply(c, s, l)) == InFlight(k, s) + Change(c, s, l, k)
  {
    hide InSeq, Attempted, BlockHolds, MayDispatch, Allocatable, NextPiece, Weight, InWriters;
    match l {
      case Retain => Head(k, s.reports);
      case Dispatch(b) => DispatchCount(c, s, b, k);
      case HashStart => Head(k, s.hq);
      case HashFinish(data) =>
        var t := s.hasher.task;
        InSeqAppend(k, s.ws[t.writer].queue, t);
        InWritersUpdate(k, s.ws, t.writer, Push(s.ws[t.writer], t));
      case CountUp =>
        var w := s.hasher.writer;
        InWritersUpdate(k, s.ws, w, s.ws[w].(size := s.ws[w].size + 1));
      case SkipBusy =>
      case NoMemory =>
      case Stop =>
      case _ => WriterCount(c, s, l, k);
    }
  }

  lemma Head(k: Kind, ts: seq<HashTask>)
    requires ts != []
    ensures InSeq(k, ts) == Weight(k, ts[0]) + InSeq(k, ts[1..])
  {
  }

  lemma DispatchCount(c: Config, s: Sys, b: nat, k: Kind)
    requires Enabled(c, s, Dispatch(b))
    ensures InFlight(k, Apply(c, s, Dispatch(b))) == InFlight(k, s) + Change(c, s, Dispatch(b), k)
  {
    hide InSeq, MayDispatch, Allocatable, NextPiece, Weight, InWriters;
    var w := Selected(s);
    var cut := NextPiece(s.ws[w].files, s.ws[w].cursor, c.workSize);
    InWritersUpdate(k, s.ws, w, HandOut(s.ws[w], cut));
    if cut.piece.Some? {
      InSeqAppend(k, s.hq, Dispatched(c, s, b).value);
    }
  }
}
