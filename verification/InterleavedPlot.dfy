/** A whole plot on a device whose work items interleave freely in each launch. */
module InterleavedPlot {
  import opened Words
  import opened Layout
  import opened CpuPlotter
  import opened Kernel
  import opened GpuPlotter
  import opened Schedule
  import opened KernelProgram

  /** What all launches of a plot have in common. */
  datatype Job = Job(plotIdBe: bv64, startNonce: bv64, nonces: nat, groups: nat)

  ghost predicate GoodJob(job: Job, flat: seq<word>) {
    && job.nonces <= 16 * job.groups <= ADDRESSABLE
    && |flat| == job.groups * 1048576
  }

  /** Some complete interleaving of all work items of a launch leads from one buffer to another. */
  ghost predicate Ran(job: Job, flat: seq<word>, l: Launch, schedule: seq<nat>, now: seq<word>)
    requires -1 <= l.end < l.start <= NUM_HASHES
  {
    var pool := LaunchPool(flat, job.plotIdBe, job.startNonce, l.start, l.end, job.nonces, 16 * job.groups);
    && ValidPool(pool)
    && (forall i | 0 <= i < |schedule| :: schedule[i] < 16 * job.groups)
    && (forall g | 0 <= g < 16 * job.groups :: Interleave(pool, schedule).items[g].Done?)
    && now == Interleave(pool, schedule).flat
  }

  /** The launches run one after the other, each in an interleaving of its own. */
  ghost predicate RanAll(job: Job, flats: seq<seq<word>>, ls: seq<Launch>, schedules: seq<seq<nat>>) {
    && InRange(ls)
    && |flats| == |ls| + 1 && |schedules| == |ls|
    && forall k | 0 <= k < |ls| :: ls[k] in ls && Ran(job, flats[k], ls[k], schedules[k], flats[k + 1])
  }

  lemma {:induction false} RanFrom(job: Job, flats: seq<seq<word>>, schedules: seq<seq<nat>>, i: nat, step: nat)
    requires step > 0 && 0 < i <= NUM_HASHES && Lands(i, step)
    requires flats != [] && GoodJob(job, flats[0]) && RanAll(job, flats, LaunchesFrom(i, step), schedules)
    requires forall g | 0 <= g < job.nonces :: Grown(flats[0], g, i, ItemSeed(job.plotIdBe, job.startNonce, g))
    ensures var now := flats[|flats| - 1];
            && |now| == |flats[0]|
            && (forall g | 0 <= g < job.nonces :: Finished(now, g, ItemSeed(job.plotIdBe, job.startNonce, g)))
            && (forall at | 0 <= at < |now| && OwnerOf(at) >= job.nonces :: now[at] == flats[0][at])
    decreases i
  {
    hide Grown, Finished, ItemSeed, OwnerOf, Lands, Ran, RanAll;
    var first := Launch(i, i - step - (if i == step then 1 else 0));
    var rest := LaunchesFrom(i - step, step);
    RanFirst(job, flats, first, rest, schedules);
    OneLaunch(job, flats[0], first, schedules[0], flats[1]);
    if i <= step {
      LandsNow(i, step);
    } else {
      LandsLater(i, step);
      RanFrom(job, flats[1..], schedules[1..], i - step, step);
    }
  }

  lemma RanFirst(job: Job, flats: seq<seq<word>>, first: Launch, rest: seq<Launch>, schedules: seq<seq<nat>>)
    requires RanAll(job, flats, [first] + rest, schedules)
    ensures |flats| == |rest| + 2 && |schedules| == |rest| + 1
    ensures -1 <= first.end < first.start <= NUM_HASHES && Ran(job, flats[0], first, schedules[0], flats[1])
    ensures RanAll(job, flats[1..], rest, schedules[1..])
  {
    hide Ran;
    var ls := [first] + rest;
    assert ls[0] == first;
    assert forall k | 0 <= k < |rest| :: rest[k] == ls[k + 1];
    forall l | l in rest ensures -1 <= l.end < l.start <= NUM_HASHES {
      assert l in ls;
    }
  }

  lemma OneLaunch(job: Job, flat: seq<word>, l: Launch, schedule: seq<nat>, now: seq<word>)
    requires -1 <= l.end < l.start <= NUM_HASHES && GoodJob(job, flat) && Ran(job, flat, l, schedule, now)
    requires forall g | 0 <= g < job.nonces :: Grown(flat, g, l.start, ItemSeed(job.plotIdBe, job.startNonce, g))
    ensures |now| == |flat|
    ensures forall g | 0 <= g < job.nonces :: Reached(now, g, l.end, ItemSeed(job.plotIdBe, job.startNonce, g))
    ensures forall at | 0 <= at < |flat| && OwnerOf(at) >= job.nonces :: now[at] == flat[at]
  {
    hide Grown, Finished, ItemSeed, OwnerOf, Interleave;
    forall g | 0 <= g < job.nonces ensures Fits(|flat|, g) {
      FitsBelow(16 * job.groups, g);
    }
    AnyInterleavingOfALaunch(flat, job.plotIdBe, job.startNonce, l.start, l.end, job.nonces, job.groups, schedule);
  }

  /**
   * For every good step, however the work items of each launch interleave, the launches of a plot
   * finish every nonce asked for, whatever the buffer held, and touch no word of the others: what
   * plot does with the work items in order.
   */
  lemma InterleavedPlotFinishes(job: Job, flats: seq<seq<word>>, schedules: seq<seq<nat>>, step: nat)
    requires step > 0 && GoodStep(step)
    requires flats != [] && GoodJob(job, flats[0])
    requires RanAll(job, flats, LaunchesFrom(NUM_HASHES, step), schedules)
    ensures var now := flats[|flats| - 1];
            && |now| == |flats[0]|
            && (forall g | 0 <= g < job.nonces :: Finished(now, g, ItemSeed(job.plotIdBe, job.startNonce, g)))
            && (forall at | 0 <= at < |now| && OwnerOf(at) >= job.nonces :: now[at] == flats[0][at])
  {
    hide Grown, Finished, ItemSeed, OwnerOf, Lands, RanAll, GoodStep;
    StepLands(step);
    forall g | 0 <= g < job.nonces
      ensures Grown(flats[0], g, NUM_HASHES, ItemSeed(job.plotIdBe, job.startNonce, g))
    {
      FitsBelow(16 * job.groups, g);
      NothingGrown(flats[0], g, ItemSeed(job.plotIdBe, job.startNonce, g));
    }
    RanFrom(job, flats, schedules, NUM_HASHES, step);
  }

  lemma LaunchRuns(job: Job, flat: seq<word>, l: Launch) returns (schedule: seq<nat>, now: seq<word>)
    requires -1 <= l.end < l.start <= NUM_HASHES && GoodJob(job, flat)
    requires forall g | 0 <= g < job.nonces :: Grown(flat, g, l.start, ItemSeed(job.plotIdBe, job.startNonce, g))
    ensures Ran(job, flat, l, schedule, now) && |now| == |flat|
    ensures forall g | 0 <= g < job.nonces :: Reached(now, g, l.end, ItemSeed(job.plotIdBe, job.startNonce, g))
  {
    hide Grown, Finished, ItemSeed, ItemOf, OwnerOf, Interleave, Fits, ValidPool;
    forall g | 0 <= g < 16 * job.groups ensures Fits(|flat|, g) {
      FitsBelow(16 * job.groups, g);
    }
    schedule := LaunchCanFinish(flat, job.plotIdBe, job.startNonce, l.start, l.end, job.nonces, job.groups);
    var pool := LaunchPool(flat, job.plotIdBe, job.startNonce, l.start, l.end, job.nonces, 16 * job.groups);
    now := Interleave(pool, schedule).flat;
    OneLaunch(job, flat, l, schedule, now);
  }

  lemma RanOneMore(job: Job, flat: seq<word>, l: Launch, schedule: seq<nat>,
                   flats: seq<seq<word>>, ls: seq<Launch>, schedules: seq<seq<nat>>)
    requires RanAll(job, flats, ls, schedules)
    requires -1 <= l.end < l.start <= NUM_HASHES && Ran(job, flat, l, schedule, flats[0])
    ensures RanAll(job, [flat] + flats, [l] + ls, [schedule] + schedules)
  {
    hide Ran;
    var more := [l] + ls;
    forall k | 0 <= k < |more|
      ensures more[k] in more && -1 <= more[k].end < more[k].start <= NUM_HASHES
      ensures Ran(job, ([flat] + flats)[k], more[k], ([schedule] + schedules)[k], ([flat] + flats)[k + 1])
    {
      if k > 0 {
        assert ls[k - 1] in ls;
      }
    }
  }

  lemma {:induction false} RunsFrom(job: Job, flat: seq<word>, i: nat, step: nat)
    returns (flats: seq<seq<word>>, schedules: seq<seq<nat>>)
    requires step > 0 && 0 < i <= NUM_HASHES && Lands(i, step) && GoodJob(job, flat)
    requires forall g | 0 <= g < job.nonces :: Grown(flat, g, i, ItemSeed(job.plotIdBe, job.startNonce, g))
    ensures RanAll(job, flats, LaunchesFrom(i, step), schedules) && flats != [] && flats[0] == flat
    decreases i
  {
    hide Grown, Finished, ItemSeed, Lands, Ran, RanAll;
    var first := Launch(i, i - step - (if i == step then 1 else 0));
    var rest := LaunchesFrom(i - step, step);
    if i <= step {
      LandsNow(i, step);
    } else {
      LandsLater(i, step);
    }
    var schedule, now := LaunchRuns(job, flat, first);
    if i <= step {
      flats, schedules := [now], [];
      NoneRan(job, now);
    } else {
      flats, schedules := RunsFrom(job, now, i - step, step);
    }
    RanOneMore(job, flat, first, schedule, flats, rest, schedules);
    flats, schedules := [flat] + flats, [schedule] + schedules;
  }

  lemma NoneRan(job: Job, flat: seq<word>)
    ensures RanAll(job, [flat], [], [])
  {
  }

  /** Such a plot exists for every good step and every buffer. */
  lemma InterleavedPlotExists(job: Job, flat: seq<word>, step: nat)
    returns (flats: seq<seq<word>>, schedules: seq<seq<nat>>)
    requires step > 0 && GoodStep(step) && GoodJob(job, flat)
    ensures flats != [] && flats[0] == flat && RanAll(job, flats, LaunchesFrom(NUM_HASHES, step), schedules)
  {
    hide Grown, ItemSeed, Lands, GoodStep;
    StepLands(step);
    forall g | 0 <= g < job.nonces
      ensures Grown(flat, g, NUM_HASHES, ItemSeed(job.plotIdBe, job.startNonce, g))
    {
      FitsBelow(16 * job.groups, g);
      NothingGrown(flat, g, ItemSeed(job.plotIdBe, job.startNonce, g));
    }
    flats, schedules := RunsFrom(job, flat, NUM_HASHES, step);
  }
}
