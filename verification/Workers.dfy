/** What the hasher's and the writers' methods do is steps of the pipeline. */
module Workers {
  import opened Words
  import opened Layout
  import opened GpuPlotter
  import opened Transposition
  import opened PlotFile
  import opened Tasks
  import opened WriterWorker
  import opened Hasher
  import opened Pipeline
  import opened PipelineTotals
  import opened WriterProgress
  import opened PipelineSafety
  import opened PipelineContents
  import opened EndToEnd
  import opened Completion

  /** The labels, one after the other, lead from one state to another. */
  ghost predicate Takes(c: Config, s: Sys, labels: seq<Label>, end: Sys)
    decreases |labels|
  {
    if labels == [] then s == end
    else Enabled(c, s, labels[0]) && Takes(c, Apply(c, s, labels[0]), labels[1..], end)
  }

  lemma TakesOne(c: Config, s: Sys, l: Label)
    requires Enabled(c, s, l)
    ensures Takes(c, s, [l], Apply(c, s, l))
  {
    hide Enabled, Apply;
    assert [l][1..] == [];
  }

  lemma TakesMore(c: Config, s: Sys, l: Label, labels: seq<Label>, end: Sys)
    requires Enabled(c, s, l) && Takes(c, Apply(c, s, l), labels, end)
    ensures Takes(c, s, [l] + labels, end)
  {
    hide Enabled, Apply;
    assert ([l] + labels)[1..] == labels;
  }

  // ---- the writer thread ---------------------------------------------------------------------

  /**
   * The steps of one attempt to write. A stop that comes up in it has no effect on a failed attempt;
   * it cuts off one that would otherwise succeed, after the file was opened.
   */
  function AttemptSteps(w: nat, ok: bool, raised: bool, ready: seq<byte>, now: seq<byte>, cut: Mark): seq<Label> {
    if ok && raised then [WriteFail(w, ready), Stop, WriteTorn(w, cut, now)]
    else if ok then [WriteOk(w, now)]
    else if raised then [Stop, WriteFail(w, now)]
    else [WriteFail(w, now)]
  }

  /** What an attempt says about the file, its contents before, when opened and now. */
  ghost predicate Tried(was: seq<byte>, ready: seq<byte>, now: seq<byte>, size: nat, off: nat, n: nat, flat: seq<word>,
                        ok: bool, raised: bool, cut: Mark)
  {
    && Attempted(was, ready, size, off, n, flat, false)
    && Attempted(was, now, size, off, n, flat, ok && !raised)
    && (ok ==> WrittenUpTo(ready, now, size, off, n, flat, cut))
  }

  ghost predicate CanWrite(s: Sys, w: nat) {
    && IsWriting(s, w)
    && var t := s.ws[w].busy.task;
       HasFile(s.ws[w], t.file) && t.block in s.mem && s.ws[w].files[t.file].initSn <= t.sn
  }

  /** What is left of the writer and its file after an attempt. */
  ghost predicate AttemptDone(s: Sys, w: nat, now: seq<byte>, ok: bool, raised: bool, after: Sys)
    requires CanWrite(s, w)
  {
    var wr, t := s.ws[w], s.ws[w].busy.task;
    var booked := Submit(wr.files[t.file], t.n);
    && |after.ws| == |s.ws| && HasFile(after.ws[w], t.file) && after.mem == s.mem && after.stopped == raised
    && after.ws[w].disk[t.file] == now
    && after.ws[w].files[t.file] == (if ok then booked.0 else wr.files[t.file])
    && after.ws[w].renames[t.file] == wr.renames[t.file] + (if ok && booked.1 then 1 else 0)
    && after.ws[w].busy == (if ok then Written(t) else Writing(t))
  }

  /** After an attempt the thread may report the task or, with a stop, give up. */
  lemma AfterAttempt(c: Config, s: Sys, w: nat, now: seq<byte>, ok: bool, raised: bool, after: Sys)
    requires CanWrite(s, w) && AttemptDone(s, w, now, ok, raised, after)
    ensures if ok then Enabled(c, after, Report(w)) else raised ==> Enabled(c, after, GiveUp(w))
  {
  }

  /** Whatever an attempt does is one, two or three steps, and they do the same. */
  lemma AttemptIsSteps(c: Config, s: Sys, w: nat, ready: seq<byte>, now: seq<byte>, ok: bool, raised: bool, cut: Mark)
    returns (after: Sys)
    requires CanWrite(s, w) && (s.stopped ==> raised)
    requires var wr, t := s.ws[w], s.ws[w].busy.task;
             var file := wr.files[t.file];
             Tried(wr.disk[t.file], ready, now, file.initN, t.sn - file.initSn, t.n, s.mem[t.block], ok, raised, cut)
    ensures Takes(c, s, AttemptSteps(w, ok, raised, ready, now, cut), after)
    ensures AttemptDone(s, w, now, ok, raised, after)
  {
    hide Attempted, WrittenUpTo, HeldAlready, Takes;
    if ok && raised {
      after := TornInSteps(c, s, w, ready, now, cut);
    } else if ok {
      after := Apply(c, s, WriteOk(w, now));
      TakesOne(c, s, WriteOk(w, now));
    } else if raised {
      var mid := Apply(c, s, Stop);
      after := Apply(c, mid, WriteFail(w, now));
      TakesOne(c, mid, WriteFail(w, now));
      TakesMore(c, s, Stop, [WriteFail(w, now)], after);
      assert [Stop] + [WriteFail(w, now)] == [Stop, WriteFail(w, now)];
    } else {
      after := Apply(c, s, WriteFail(w, now));
      TakesOne(c, s, WriteFail(w, now));
    }
  }

  lemma TornInSteps(c: Config, s: Sys, w: nat, ready: seq<byte>, now: seq<byte>, cut: Mark) returns (after: Sys)
    requires CanWrite(s, w)
    requires var wr, t := s.ws[w], s.ws[w].busy.task;
             var file := wr.files[t.file];
             Tried(wr.disk[t.file], ready, now, file.initN, t.sn - file.initSn, t.n, s.mem[t.block], true, true, cut)
    ensures Takes(c, s, [WriteFail(w, ready), Stop, WriteTorn(w, cut, now)], after)
    ensures AttemptDone(s, w, now, true, true, after)
  {
    hide Attempted, WrittenUpTo, HeldAlready, Takes;
    var begun := Apply(c, s, WriteFail(w, ready));
    var stopped := Apply(c, begun, Stop);
    after := Apply(c, stopped, WriteTorn(w, cut, now));
    TakesOne(c, stopped, WriteTorn(w, cut, now));
    TakesMore(c, begun, Stop, [WriteTorn(w, cut, now)], after);
    TakesMore(c, s, WriteFail(w, ready), [Stop] + [WriteTorn(w, cut, now)], after);
    assert [WriteFail(w, ready)] + ([Stop] + [WriteTorn(w, cut, now)])
        == [WriteFail(w, ready), Stop, WriteTorn(w, cut, now)];
  }

  /** The objects that the writer thread works on hold what the state says. */
  ghost predicate WriterHas(s: Sys, w: nat, bytes: seq<byte>, file: FileTask, flat: seq<word>, raised: bool)
    requires CanWrite(s, w)
  {
    var t := s.ws[w].busy.task;
    bytes == s.ws[w].disk[t.file] && file == s.ws[w].files[t.file] && flat == s.mem[t.block] && raised == s.stopped
  }

  lemma MayTry(c: Config, s: Sys, w: nat)
    requires Sound(c, s) && IsWriting(s, w)
    ensures CanWrite(s, w)
    ensures var t := s.ws[w].busy.task;
            var file := s.ws[w].files[t.file];
            t.sn - file.initSn + t.n <= file.initN && BlockFits(|s.mem[t.block]|, t.n)
  {
    hide Accounted, Ordered, Contents, FileGood, BlockHolds, BlockFits;
    WritingGood(c, w, s);
    var t := s.ws[w].busy.task;
    HeldFits(s.mem[t.block], c.plotId, U64(t.sn), t.n);
  }

  /** One pass of the writer's retry loop, in any sound state in which the writer is writing. */
  method WriterTurn(ghost c: Config, ghost s: Sys, w: nat, t: HashTask, file: File, stop: StopSignal, task: WriterTask,
                    block: array<word>, writeBuf: array<word>)
    returns (ok: bool, ghost labels: seq<Label>, ghost after: Sys)
    requires Sound(c, s) && IsWriting(s, w) && t == s.ws[w].busy.task && CanWrite(s, w)
    requires WriterHas(s, w, file.bytes, task.Abs(), block[..], stop.raised)
    requires block != writeBuf && writeBuf.Length == SCOOP_WORDS * SCOOPS_PER_WRITE
    modifies file, stop, task, writeBuf
    ensures Takes(c, s, labels, after) && |labels| <= 3
    ensures AttemptDone(s, w, file.bytes, ok, stop.raised, after)
    ensures if ok then Enabled(c, after, Report(w)) else stop.raised ==> Enabled(c, after, GiveUp(w))
    ensures !ok ==> file.failed > old(file.failed)
    ensures ok && !stop.raised ==> file.failed == old(file.failed)
    ensures task.Abs() == after.ws[w].files[t.file] && block[..] == after.mem[t.block]
  {
    hide Sound, Attempted, WrittenUpTo, BlockFits, Takes;
    MayTry(c, s, w);
    var renamed: bool;
    ghost var ready: seq<byte>;
    ghost var cut: Mark;
    ok, renamed, ready, cut := TryWrite(file, stop, task, block, writeBuf, t.sn, t.n);
    labels := AttemptSteps(w, ok, stop.raised, ready, file.bytes, cut);
    after := AttemptIsSteps(c, s, w, ready, file.bytes, ok, stop.raised, cut);
    AfterAttempt(c, s, w, file.bytes, ok, stop.raised, after);
  }

  // ---- the hasher thread ---------------------------------------------------------------------

  lemma MayHash(c: Config, s: Sys)
    requires Sound(c, s) && s.hasher.Working?
    ensures s.hasher.task.writer < |s.ws| && s.hasher.task.n <= c.workSize
  {
    hide Accounted, Contents, InFlight, FilesOk, Contiguous;
    assert s.hasher.task in Upstream(s);
  }

  /** The chunk loop of the hasher, in any sound state in which the hasher is at work. */
  method HasherTurn(ghost c: Config, ghost s: Sys, plotId: bv64, t: HashTask, parts: nat, dev: Device,
                    block: array<word>)
    returns (ghost after: Sys)
    requires Ready(c) && Sound(c, s) && s.hasher == Working(t)
    requires dev.Valid() && dev.gws == c.gws && dev.step == LaunchStep(c.step) && parts == c.parts && plotId == c.plotId
    requires block != dev.buf && block.Length == parts * dev.gws * NONCE_SIZE_WORDS
    modifies block, dev.buf
    ensures Takes(c, s, [HashFinish(block[..])], after)
    ensures t.writer < |after.ws| && after.mem == s.mem[t.block := block[..]]
    ensures after.hasher == Counting(t.writer) && Enabled(c, after, CountUp)
    ensures after.ws[t.writer].queue == s.ws[t.writer].queue + [t]
  {
    hide Sound, BlockHolds, BlockBounds, GoodStep, LaunchStep, PlanTotal, Takes;
    MayHash(c, s);
    FillBlock(dev, block, plotId, U64(t.sn), t.n, parts);
    after := Apply(c, s, HashFinish(block[..]));
    TakesOne(c, s, HashFinish(block[..]));
  }
}
