/**
 * The dispatcher, the hasher thread and the writer threads as one state machine. A step is what one
 * thread does between two points where others can see it; any interleaving is a run.
 */
module Pipeline {
  import opened Words
  import opened Layout
  import opened GpuPlotter
  import opened Transposition
  import opened Tasks
  import opened WriterWorker
  import opened Hasher

  /**
   * A run's fixed data: the device's work size, how many of them make a task, the step option, and the
   * files plan[w] of each writer w. workSize is the size of a task.
   */
  datatype Config = Config(plotId: bv64, gws: nat, parts: nat, step: nat, workSize: nat, maxFlying: nat,
                           plan: seq<seq<Range>>)

  datatype WriterBusy = Idle | Writing(task: HashTask) | Written(task: HashTask)

  /** Counting: the hasher has appended to that writer's queue, and not yet raised its size counter. */
  datatype HasherBusy = Resting | Working(task: HashTask) | Counting(writer: nat)

  /**
   * One writer: its files with the task cursor, its queue with the separate size counter (-1 is the
   * wrapped 2^64 - 1), the contents of its files, how often each was renamed, and whether the thread
   * is about to end after a stop. handed and written record how many nonces went out and came back,
   * spoiled a file that a stop has left with wrong contents.
   */
  datatype Writer = Writer(files: seq<FileTask>, cursor: nat, queue: seq<HashTask>, size: int, busy: WriterBusy,
                           disk: seq<seq<byte>>, renames: seq<nat>, halted: bool, handed: nat, written: nat,
                           spoiled: Option<nat>)

  datatype Sys = Sys(ws: seq<Writer>, hq: seq<HashTask>, hasher: HasherBusy, reports: seq<HashTask>,
                     mem: map<nat, seq<word>>, free: set<nat>, used: set<nat>,
                     finished: nat, dispatched: nat, ongoing: int, pos: nat, stopped: bool)

  datatype Label =
    | Retain
    | SkipBusy
    | NoMemory
    | Dispatch(block: nat)
    | HashStart
    | HashFinish(data: seq<word>)
    | CountUp
    | WriteStart(w: nat)
    | WriteFail(w: nat, bytes: seq<byte>)
    | WriteOk(w: nat, bytes: seq<byte>)
    | WriteTorn(w: nat, cut: Mark, bytes: seq<byte>)
    | GiveUp(w: nat)
    | Report(w: nat)
    | Stop

  function SumOf(ranges: seq<Range>): nat {
    if ranges == [] then 0 else ranges[0].n + SumOf(ranges[1..])
  }

  function PlanTotal(plan: seq<seq<Range>>): nat {
    if plan == [] then 0 else SumOf(plan[0]) + PlanTotal(plan[1..])
  }

  /**
   * What the threads start from. run_plotter has made sure that there is something to plot, a positive
   * work size and memory for a task. That the device's work size is a multiple of 16 is only asserted
   * (a build without assertions does not check it), and nothing checks the bounds of the second line,
   * without which hashing goes wrong.
   */
  ghost predicate Ready(c: Config) {
    && c.gws > 0 && c.gws % 16 == 0 && c.parts > 0 && c.workSize == c.parts * c.gws > 0
    && BlockBounds(c.gws, c.parts) && GoodStep(LaunchStep(c.step)) && PlanTotal(c.plan) < 0x8000_0000_0000_0000
    && c.maxFlying > 0 && |c.plan| > 0
    && forall w, f | 0 <= w < |c.plan| && 0 <= f < |c.plan[w]| :: c.plan[w][f].n > 0
  }

  // ---- what each thread does to a writer ------------------------------------------------

  function NewWriter(ranges: seq<Range>, disk: seq<seq<byte>>): Writer {
    Writer(seq(|ranges|, f requires 0 <= f < |ranges| => Fresh(ranges[f])), 0, [], 0, Idle,
           disk, seq(|ranges|, _ => 0), false, 0, 0, None)
  }

  ghost predicate HasFile(wr: Writer, f: nat) {
    f < |wr.files| && f < |wr.disk| && f < |wr.renames|
  }

  function HandOut(wr: Writer, cut: Cut): Writer {
    wr.(files := cut.files, cursor := cut.cursor,
        handed := wr.handed + match cut.piece case None => 0 case Some(p) => p.2)
  }

  function Push(wr: Writer, t: HashTask): Writer {
    wr.(queue := wr.queue + [t])
  }

  function Pop(wr: Writer): Writer
    requires wr.queue != []
  {
    wr.(queue := wr.queue[1..], size := wr.size - 1, busy := Writing(wr.queue[0]))
  }

  function Overwrite(wr: Writer, f: nat, bytes: seq<byte>): Writer
    requires f < |wr.disk|
  {
    wr.(disk := wr.disk[f := bytes])
  }

  /** After a write that was reported as done: books the nonces, renames a complete file. */
  ghost function Commit(wr: Writer, t: HashTask, bytes: seq<byte>): Writer
    requires HasFile(wr, t.file)
  {
    var r := Submit(wr.files[t.file], t.n);
    wr.(disk := wr.disk[t.file := bytes],
        files := wr.files[t.file := r.0],
        renames := if r.1 then wr.renames[t.file := wr.renames[t.file] + 1] else wr.renames,
        written := wr.written + t.n,
        busy := Written(t))
  }

  // ---- the steps ---------------------------------------------------------------------------

  /** The comparison of a signed 32-bit counter that has counted to x with the unsigned 64-bit total. */
  predicate CounterMeets(x: nat, total: nat) {
    Int32(x) % 0x1_0000_0000_0000_0000 == total
  }

  /** The dispatcher's guards before it looks at a writer. */
  ghost predicate MayDispatch(c: Config, s: Sys) {
    && !CounterMeets(s.finished, PlanTotal(c.plan))
    && !CounterMeets(s.dispatched, PlanTotal(c.plan))
    && s.ongoing < c.maxFlying
    && |s.hq| <= 1
  }

  /** The writer that the cursor selects, after starting over at the end. */
  function Selected(s: Sys): nat {
    if s.pos >= |s.ws| then 0 else s.pos
  }

  /** Blocks all have one length: any free one, or a new one when there is none. */
  ghost predicate Allocatable(s: Sys, b: nat) {
    b in s.free || (s.free == {} && b !in s.used)
  }

  /**
   * What an attempt to write task t, from the block in memory, may leave in its file. Opening and
   * preallocating the file count as a failed attempt.
   */
  ghost predicate AttemptBy(s: Sys, w: nat, t: HashTask, bytes: seq<byte>, complete: bool) {
    && w < |s.ws| && HasFile(s.ws[w], t.file) && t.block in s.mem
    && var file := s.ws[w].files[t.file];
    && file.initSn <= t.sn
    && Attempted(s.ws[w].disk[t.file], bytes, file.initN, t.sn - file.initSn, t.n, s.mem[t.block], complete)
  }

  /** What a write of task t that a stop has cut off leaves in its file. */
  ghost predicate TornBy(s: Sys, w: nat, t: HashTask, bytes: seq<byte>, cut: Mark) {
    && w < |s.ws| && HasFile(s.ws[w], t.file) && t.block in s.mem
    && var file := s.ws[w].files[t.file];
    && file.initSn <= t.sn
    && WrittenUpTo(s.ws[w].disk[t.file], bytes, file.initN, t.sn - file.initSn, t.n, s.mem[t.block], cut)
  }

  /** Every slot of the task from the cut on holds its row as the file is, before the write. */
  ghost predicate HeldAlready(s: Sys, w: nat, t: HashTask, cut: Mark)
    requires w < |s.ws| && HasFile(s.ws[w], t.file) && t.block in s.mem && BlockFits(|s.mem[t.block]|, t.n)
    requires s.ws[w].files[t.file].initSn <= t.sn
  {
    var file := s.ws[w].files[t.file];
    var off := t.sn - file.initSn;
    forall v, k | 0 <= v < SCOOPS_PER_PLOT && off <= k < off + t.n && !Before(v, k, cut) ::
      SlotDone(s.ws[w].disk[t.file], file.initN, v, k, s.mem[t.block], off)
  }

  ghost predicate IsWriting(s: Sys, w: nat) {
    w < |s.ws| && s.ws[w].busy.Writing?
  }

  ghost predicate Enabled(c: Config, s: Sys, l: Label) {
    match l
    case Retain => s.reports != []
    case SkipBusy => MayDispatch(c, s) && s.ws != [] && s.ws[Selected(s)].size != 0
    case NoMemory => MayDispatch(c, s) && s.ws != [] && s.ws[Selected(s)].size == 0
    case Dispatch(b) => MayDispatch(c, s) && s.ws != [] && s.ws[Selected(s)].size == 0 && Allocatable(s, b)
    case HashStart => s.hasher.Resting? && s.hq != []
    case HashFinish(data) =>
      && s.hasher.Working? && s.hasher.task.writer < |s.ws|
      && |data| == c.workSize * NONCE_SIZE_WORDS
      && BlockHolds(data, c.plotId, U64(s.hasher.task.sn), s.hasher.task.n)
    case CountUp => s.hasher.Counting? && s.hasher.writer < |s.ws|
    case WriteStart(w) => w < |s.ws| && s.ws[w].busy.Idle? && s.ws[w].queue != [] && !s.ws[w].halted
    case WriteFail(w, bytes) => IsWriting(s, w) && AttemptBy(s, w, s.ws[w].busy.task, bytes, false)
    case WriteOk(w, bytes) => IsWriting(s, w) && AttemptBy(s, w, s.ws[w].busy.task, bytes, true)
    case WriteTorn(w, cut, bytes) => s.stopped && IsWriting(s, w) && TornBy(s, w, s.ws[w].busy.task, bytes, cut)
    case GiveUp(w) => s.stopped && IsWriting(s, w)
    case Report(w) => w < |s.ws| && s.ws[w].busy.Written?
    case Stop => true
  }

  function WithWriter(s: Sys, w: nat, wr: Writer): Sys
    requires w < |s.ws|
  {
    s.(ws := s.ws[w := wr])
  }

  /**
   * A write that a stop has cut off is booked like a complete one; as the stop flag stays up, the
   * thread ends after it. spoiled notes whether the file's contents are now wrong.
   */
  ghost function Torn(s: Sys, w: nat, cut: Mark, bytes: seq<byte>): Writer
    requires IsWriting(s, w) && TornBy(s, w, s.ws[w].busy.task, bytes, cut)
  {
    var t := s.ws[w].busy.task;
    Commit(s.ws[w], t, bytes).(halted := true, spoiled := if HeldAlready(s, w, t, cut) then None else Some(t.file))
  }

  ghost function Apply(c: Config, s: Sys, l: Label): Sys
    requires Enabled(c, s, l)
  {
    match l
    case Retain =>
      var t := s.reports[0];
      s.(reports := s.reports[1..], free := s.free + {t.block}, used := s.used - {t.block},
         finished := s.finished + t.n, ongoing := s.ongoing - 1)
    case SkipBusy => s.(pos := Selected(s) + 1)
    case NoMemory => s.(pos := Selected(s))
    case Dispatch(b) =>
      var w := Selected(s);
      var cut := NextPiece(s.ws[w].files, s.ws[w].cursor, c.workSize);
      var moved := WithWriter(s, w, HandOut(s.ws[w], cut)).(pos := w + 1);
      (match cut.piece
       case None => moved.(free := s.free + {b})
       case Some(p) =>
         moved.(hq := s.hq + [HashTask(w, p.0, p.1, p.2, b)], free := s.free - {b}, used := s.used + {b},
                dispatched := s.dispatched + p.2, ongoing := s.ongoing + 1))
    case HashStart => s.(hq := s.hq[1..], hasher := Working(s.hq[0]))
    case HashFinish(data) =>
      var t := s.hasher.task;
      WithWriter(s, t.writer, Push(s.ws[t.writer], t))
        .(hasher := Counting(t.writer), mem := s.mem[t.block := data])
    case CountUp =>
      var w := s.hasher.writer;
      WithWriter(s, w, s.ws[w].(size := s.ws[w].size + 1)).(hasher := Resting)
    case WriteStart(w) => WithWriter(s, w, Pop(s.ws[w]))
    case WriteFail(w, bytes) => WithWriter(s, w, Overwrite(s.ws[w], s.ws[w].busy.task.file, bytes))
    case WriteOk(w, bytes) => WithWriter(s, w, Commit(s.ws[w], s.ws[w].busy.task, bytes))
    case WriteTorn(w, cut, bytes) => WithWriter(s, w, Torn(s, w, cut, bytes))
    case GiveUp(w) => WithWriter(s, w, s.ws[w].(busy := Written(s.ws[w].busy.task), halted := true))
    case Report(w) =>
      WithWriter(s, w, s.ws[w].(busy := Idle)).(reports := s.reports + [s.ws[w].busy.task])
    case Stop => s.(stopped := true)
  }

  // ---- runs ------------------------------------------------------------------------------------

  /** The start: files may hold anything from earlier runs. */
  ghost predicate Initial(c: Config, s: Sys) {
    && |s.ws| == |c.plan|
    && (forall w | 0 <= w < |s.ws| ::
          |s.ws[w].disk| == |c.plan[w]| && s.ws[w] == NewWriter(c.plan[w], s.ws[w].disk))
    && s.hq == [] && s.hasher == Resting && s.reports == [] && s.free == {} && s.used == {}
    && s.finished == 0 && s.dispatched == 0 && s.ongoing == 0 && s.pos == 0 && !s.stopped
  }

  /** The states of a run, one more than it has steps. */
  ghost predicate IsRun(c: Config, states: seq<Sys>, labels: seq<Label>) {
    && |states| == |labels| + 1
    && Initial(c, states[0])
    && forall i | 0 <= i < |labels| ::
         Enabled(c, states[i], labels[i]) && states[i + 1] == Apply(c, states[i], labels[i])
  }

  /** No stop cuts off a write that is then reported as done. */
  ghost predicate NoTornWrite(labels: seq<Label>) {
    forall i | 0 <= i < |labels| :: !labels[i].WriteTorn?
  }
}
