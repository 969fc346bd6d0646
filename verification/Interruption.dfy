/** What a stop during a write does: the write is reported as done although it is not. */
module Interruption {
  import opened Words
  import opened CpuPlotter
  import opened Transposition
  import opened Tasks
  import opened Hasher
  import opened WriterWorker
  import opened Pipeline
  import opened WriterProgress
  import opened PipelineSafety
  import opened PipelineContents
  import opened EndToEnd
  import opened Completion
  import opened Possible

  /**
   * A write that a stop cuts off is booked like any other. What is then on disk is what the books
   * promise exactly if every slot from the cut on held its row before: always, if all scoops are done.
   */
  lemma TornWriteIsHarmlessIff(c: Config, s: Sys, w: nat, cut: Mark, bytes: seq<byte>)
    requires Sound(c, s) && Enabled(c, s, WriteTorn(w, cut, bytes))
    ensures w < |c.plan| && s.ws[w].busy.task.file < |c.plan[w]|
    ensures var t := s.ws[w].busy.task;
            var r, after := c.plan[w][t.file], Apply(c, s, WriteTorn(w, cut, bytes)).ws[w];
            && HasFile(after, t.file)
            && (FileGood(c.plotId, r, after.disk[t.file], after.files[t.file].submitted) <==> HeldAlready(s, w, t, cut))
            && (cut.scoop >= SCOOPS_PER_PLOT ==> HeldAlready(s, w, t, cut))
  {
    hide FileGood, BlockHolds, FilesOk, Contiguous, SlotDone, WrittenUpTo, Accounted, PieceOf;
    WritingGood(c, w, s);
    var wr, t := s.ws[w], s.ws[w].busy.task;
    CutWriteGood(c.plotId, c.plan[w][t.file], wr.disk[t.file], bytes, wr.files[t.file].submitted, t.n,
                 s.mem[t.block], cut);
  }

  // ---- a run that renames a file of any contents ---------------------------------------------

  /** One drive with one file of 16 nonces, done in one task. */
  function Small(): Config {
    Config(1, 16, 1, 0, 16, 1, [[Range(0, 16)]])
  }

  const SMALL_TASK := HashTask(0, 0, 0, 16, 4096)
  const SMALL_FILE := 16 * 262144

  /** The small system's one writer, at each stage of its one task. */
  function SmallWriter(left: nat, handed: nat, queue: seq<HashTask>, size: int, busy: WriterBusy, bytes: seq<byte>)
    : Writer
  {
    Writer([FileTask(0, 16, left, 0, handed, 0)], 0, queue, size, busy, [bytes], [0], false, handed, 0, None)
  }

  function SmallSys(wr: Writer, hq: seq<HashTask>, hasher: HasherBusy, mem: map<nat, seq<word>>, stopped: bool): Sys {
    Sys([wr], hq, hasher, [], mem, {}, {4096}, 0, 16, 1, 1, stopped)
  }

  function SmallStart(): Sys {
    Sys([SmallWriter(16, 0, [], 0, Idle, [])], [], Resting, [], map[], {}, {}, 0, 0, 0, 0, false)
  }

  /** The file is opened with some contents before the stop comes. */
  function SmallStates(data: seq<word>, bytes: seq<byte>): seq<Sys> {
    var mem := map[4096 := data];
    [ SmallStart(),
      SmallSys(SmallWriter(0, 16, [], 0, Idle, []), [SMALL_TASK], Resting, map[], false),
      SmallSys(SmallWriter(0, 16, [], 0, Idle, []), [], Working(SMALL_TASK), map[], false),
      SmallSys(SmallWriter(0, 16, [SMALL_TASK], 0, Idle, []), [], Counting(0), mem, false),
      SmallSys(SmallWriter(0, 16, [SMALL_TASK], 1, Idle, []), [], Resting, mem, false),
      SmallSys(SmallWriter(0, 16, [], 0, Writing(SMALL_TASK), []), [], Resting, mem, false),
      SmallSys(SmallWriter(0, 16, [], 0, Writing(SMALL_TASK), bytes), [], Resting, mem, false),
      SmallSys(SmallWriter(0, 16, [], 0, Writing(SMALL_TASK), bytes), [], Resting, mem, true) ]
  }

  function SmallLabels(data: seq<word>, bytes: seq<byte>): seq<Label> {
    [Dispatch(4096), HashStart, HashFinish(data), CountUp, WriteStart(0), WriteFail(0, bytes), Stop]
  }

  ghost predicate Goes(s: Sys, l: Label, after: Sys) {
    Enabled(Small(), s, l) && after == Apply(Small(), s, l)
  }

  /**
   * Renamed does not mean complete: when the stop comes after the file was opened and before the
   * first byte is written, the file gets its final name with whatever opening it, preallocating it and
   * failed attempts have left in it.
   */
  lemma TornWriteRenamesAnything(bytes: seq<byte>) returns (states: seq<Sys>, labels: seq<Label>)
    requires |bytes| <= SMALL_FILE
    ensures Ready(Small()) && IsRun(Small(), states, labels)
    ensures Renamed(states[|labels|], 0, 0) && states[|labels|].ws[0].disk[0] == bytes
  {
    hide BlockHolds, Initial, Enabled, Apply;
    var data := BlockCanHold(1, U64(0), 1, 16);
    var first, begun := SmallLabels(data, bytes), SmallStates(data, bytes);
    SmallInitial();
    SmallDispatch(data, bytes);
    SmallHashing(data, bytes);
    SmallStop(data, bytes);
    var last := SmallTorn(data, bytes);
    labels := first + [WriteTorn(0, Mark(0, 0), bytes)];
    states := begun + [last];
    forall i | 0 <= i < |labels| ensures Goes(states[i], labels[i], states[i + 1]) {
      assert i == 0 || i == 1 || i == 2 || i == 3 || i == 4 || i == 5 || i == 6 || i == 7;
    }
  }

  /** A file without a byte, as when preallocation failed. */
  lemma TornWriteRenamesEmptyFile() returns (states: seq<Sys>, labels: seq<Label>)
    ensures Ready(Small()) && IsRun(Small(), states, labels)
    ensures Renamed(states[|labels|], 0, 0) && states[|labels|].ws[0].disk[0] == []
    ensures !IsPlot(1, Range(0, 16), [])
  {
    hide Ready, IsRun, IsPlot;
    states, labels := TornWriteRenamesAnything([]);
    EmptyIsNoPlot();
  }

  lemma EmptyIsNoPlot()
    ensures !IsPlot(1, Range(0, 16), [])
  {
    assert !ByteGood(1, Range(0, 16), [], 0, 0, 0);
  }

  /** A file of full length that is not the plot. */
  lemma TornWriteRenamesWrongFile() returns (states: seq<Sys>, labels: seq<Label>)
    ensures Ready(Small()) && IsRun(Small(), states, labels)
    ensures Renamed(states[|labels|], 0, 0)
    ensures |states[|labels|].ws[0].disk[0]| == SMALL_FILE
    ensures !IsPlot(1, Range(0, 16), states[|labels|].ws[0].disk[0])
  {
    hide Ready, IsRun, IsPlot;
    var bytes := WrongFile();
    states, labels := TornWriteRenamesAnything(bytes);
  }

  lemma WrongFile() returns (bytes: seq<byte>)
    ensures |bytes| == SMALL_FILE && !IsPlot(1, Range(0, 16), bytes)
  {
    hide PlotByte;
    var other: byte := if PlotByte(1, U64(0), 0) == 0 then 1 else 0;
    bytes := seq(SMALL_FILE, _ => other);
    assert !ByteGood(1, Range(0, 16), bytes, 0, 0, 0);
  }

  lemma SmallInitial()
    ensures Ready(Small()) && Initial(Small(), SmallStart())
  {
  }

  lemma SmallTotal()
    ensures PlanTotal(Small().plan) == 16
  {
  }

  lemma SmallNotSeen()
    ensures !CounterMeets(0, 16)
  {
  }

  lemma SmallDispatch(data: seq<word>, bytes: seq<byte>)
    ensures Goes(SmallStates(data, bytes)[0], Dispatch(4096), SmallStates(data, bytes)[1])
  {
    hide PlanTotal, CounterMeets;
    SmallTotal();
    SmallNotSeen();
    var wr := SmallWriter(16, 0, [], 0, Idle, []);
    var cut := NextPiece(wr.files, 0, 16);
    assert cut.piece == Some((0, 0, 16));
    assert cut.files == [FileTask(0, 16, 0, 0, 16, 0)];
  }

  lemma SmallHashing(data: seq<word>, bytes: seq<byte>)
    requires |data| == 1048576 && BlockHolds(data, 1, U64(0), 16)
    ensures Goes(SmallStates(data, bytes)[1], HashStart, SmallStates(data, bytes)[2])
    ensures Goes(SmallStates(data, bytes)[2], HashFinish(data), SmallStates(data, bytes)[3])
    ensures Goes(SmallStates(data, bytes)[3], CountUp, SmallStates(data, bytes)[4])
  {
    hide BlockHolds;
    assert [SMALL_TASK][1..] == [];
    var s, none: map<nat, seq<word>> := SmallStates(data, bytes)[2], map[];
    var after := Apply(Small(), s, HashFinish(data));
    assert none[4096 := data] == map[4096 := data];
    assert s.ws[0].queue + [SMALL_TASK] == [SMALL_TASK];
    assert after.ws[0] == SmallWriter(0, 16, [SMALL_TASK], 0, Idle, []);
    assert after.ws == [SmallWriter(0, 16, [SMALL_TASK], 0, Idle, [])];
  }

  lemma SmallStop(data: seq<word>, bytes: seq<byte>)
    requires |bytes| <= SMALL_FILE
    ensures Goes(SmallStates(data, bytes)[4], WriteStart(0), SmallStates(data, bytes)[5])
    ensures Goes(SmallStates(data, bytes)[5], WriteFail(0, bytes), SmallStates(data, bytes)[6])
    ensures Goes(SmallStates(data, bytes)[6], Stop, SmallStates(data, bytes)[7])
  {
    assert [SMALL_TASK][1..] == [];
    var wr := SmallWriter(0, 16, [], 0, Writing(SMALL_TASK), []);
    assert Overwrite(wr, 0, bytes) == SmallWriter(0, 16, [], 0, Writing(SMALL_TASK), bytes);
    assert [wr][0 := Overwrite(wr, 0, bytes)] == [Overwrite(wr, 0, bytes)];
  }

  lemma SmallTorn(data: seq<word>, bytes: seq<byte>) returns (last: Sys)
    requires BlockHolds(data, 1, U64(0), 16) && |bytes| <= SMALL_FILE
    ensures Goes(SmallStates(data, bytes)[7], WriteTorn(0, Mark(0, 0), bytes), last)
    ensures Renamed(last, 0, 0) && last.ws[0].disk[0] == bytes
  {
    var s := SmallStates(data, bytes)[7];
    HeldFits(data, 1, U64(0), 16);
    NothingTouched(bytes, 16, 0, 16, data);
    hide WrittenUpTo, BlockHolds, HeldAlready, BlockFits;
    assert TornBy(s, 0, SMALL_TASK, bytes, Mark(0, 0));
    last := Apply(Small(), s, WriteTorn(0, Mark(0, 0), bytes));
  }
}
