/** The host side of the device: work sizes, splitting a plot into launches, reading it back. */
module GpuPlotter {
  import opened Words
  import opened Layout
  import opened WordPlot
  import opened CpuPlotter
  import opened Kernel

  // ---- work sizes -------------------------------------------------------------------

  function Min(x: nat, y: nat): nat {
    if x < y then x else y
  }

  /** The largest multiple of unit that is at most x. */
  function RoundDown(x: nat, unit: nat): nat
    requires unit != 0
  {
    x / unit * unit
  }

  /** The global work size that the constructor settles on. */
  function WorkSize(lws: nat, gws: nat, maxGroup: nat, units: nat, maxAlloc: nat): (size: nat)
    requires lws != 0 || maxGroup != 0
  {
    var local := if lws != 0 then lws else maxGroup;
    var wanted := if gws != 0 then gws else units * local;
    var rounded := RoundDown(Min(maxAlloc / PLOT_SIZE, wanted), local);
    if rounded < 16 then 16 else rounded
  }

  /** What the buffer of the device takes fits its memory if and only if sixteen plots do. */
  lemma WorkSizeFits(lws: nat, gws: nat, maxGroup: nat, units: nat, maxAlloc: nat)
    requires lws != 0 || maxGroup != 0
    ensures WorkSize(lws, gws, maxGroup, units, maxAlloc) * PLOT_SIZE <= maxAlloc <==> maxAlloc >= 16 * PLOT_SIZE
  {
    hide RoundDown;
    var local := if lws != 0 then lws else maxGroup;
    RoundsDown(Min(maxAlloc / PLOT_SIZE, if gws != 0 then gws else units * local), local, 0);
  }

  /** It is the largest multiple of the local size that is wanted and fits, but at least 16. */
  lemma WorkSizeIsLargest(lws: nat, gws: nat, maxGroup: nat, units: nat, maxAlloc: nat, k: nat)
    requires lws != 0 || maxGroup != 0
    ensures var local := if lws != 0 then lws else maxGroup;
            var wanted, size := if gws != 0 then gws else units * local, WorkSize(lws, gws, maxGroup, units, maxAlloc);
            && size >= 16
            && (size == 16 || (size <= wanted && exists q: nat :: size == q * local))
            && (k * local <= wanted && k * local <= maxAlloc / PLOT_SIZE ==> k * local <= size)
  {
    hide RoundDown;
    var local := if lws != 0 then lws else maxGroup;
    RoundsDown(Min(maxAlloc / PLOT_SIZE, if gws != 0 then gws else units * local), local, k);
  }

  lemma RoundsDown(x: nat, unit: nat, k: nat)
    requires unit != 0
    ensures RoundDown(x, unit) <= x && exists q: nat :: RoundDown(x, unit) == q * unit
    ensures k * unit <= x ==> k * unit <= RoundDown(x, unit)
  {
    var q := x / unit;
    assert x < (q + 1) * unit;
    if k > q {
      AtLeast(k, q + 1, unit);
    } else {
      AtLeast(q, k, unit);
    }
  }

  /**
   * The multiple of 16 that the interleaving needs is only asserted by the program, and not at all in
   * a release build. With enough device memory it is certain for every requested size exactly if the
   * local size is a multiple of 16.
   */
  lemma WorkSizeInSixteens(lws: nat, maxGroup: nat, units: nat, maxAlloc: nat)
    requires lws != 0 || maxGroup != 0
    requires maxAlloc / PLOT_SIZE >= 17 * (if lws != 0 then lws else maxGroup)
    ensures (forall gws: nat :: WorkSize(lws, gws, maxGroup, units, maxAlloc) % 16 == 0)
        <==> (if lws != 0 then lws else maxGroup) % 16 == 0
    ensures forall gws: nat :: WorkSize(lws, gws, maxGroup, units, maxAlloc) >= 16
  {
    hide RoundDown;
    var local := if lws != 0 then lws else maxGroup;
    if local % 16 == 0 {
      forall gws: nat ensures WorkSize(lws, gws, maxGroup, units, maxAlloc) % 16 == 0 {
        var wanted := if gws != 0 then gws else units * local;
        assert local == 16 * (local / 16);
        RoundsToSixteens(Min(maxAlloc / PLOT_SIZE, wanted), local / 16);
      }
    } else {
      assert WorkSize(lws, 17 * local, maxGroup, units, maxAlloc) == 17 * local by {
        Seventeen(local);
      }
      assert 17 * local % 16 != 0;
    }
  }

  lemma Seventeen(local: nat)
    requires local != 0
    ensures RoundDown(17 * local, local) == 17 * local
  {
    Divides(17, local);
  }

  lemma RoundsToSixteens(x: nat, l: nat)
    requires l != 0
    ensures RoundDown(x, 16 * l) % 16 == 0
  {
    Regroup(x / (16 * l), l);
    Sixteens(x / (16 * l) * l);
  }

  lemma Regroup(q: nat, l: nat)
    ensures q * (16 * l) == 16 * (q * l)
  {
  }

  lemma Sixteens(k: nat)
    ensures 16 * k % 16 == 0
  {
  }

  // ---- launches ------------------------------------------------------------------------

  datatype Launch = Launch(start: int, end: int)

  /** The launches that the loop of plot issues from hash i on. */
  function LaunchesFrom(i: int, step: nat): (ls: seq<Launch>)
    requires step > 0
    decreases if i > 0 then i else 0
  {
    if i <= 0 then []
    else [Launch(i, i - step - (if i == step then 1 else 0))] + LaunchesFrom(i - step, step)
  }

  /** The hashes that a list of launches computes, in order. */
  function HashesOf(ls: seq<Launch>): seq<int> {
    if ls == [] then [] else Downto(ls[0].start, ls[0].end) + HashesOf(ls[1..])
  }

  /** start, start - 1, ..., end + 1 */
  function Downto(start: int, end: int): (s: seq<int>)
    decreases if start > end then start - end else 0
  {
    if start <= end then [] else [start] + Downto(start - 1, end)
  }

  lemma {:induction false} DowntoSplits(start: int, mid: int, end: int)
    requires start >= mid >= end
    ensures Downto(start, end) == Downto(start, mid) + Downto(mid, end)
    decreases start - mid
  {
    if start != mid {
      DowntoSplits(start - 1, mid, end);
      assert Downto(start, mid) + Downto(mid, end) == [start] + (Downto(start - 1, mid) + Downto(mid, end));
    }
  }

  /** Some launch masks the plots, that is, has end == -1. */
  ghost predicate Masks(ls: seq<Launch>) {
    exists l | l in ls :: l.end == -1
  }

  /** Every launch stays within hashes 8192 down to 0. */
  ghost predicate InRange(ls: seq<Launch>) {
    forall l | l in ls :: -1 <= l.end < l.start <= NUM_HASHES
  }

  /** Counting down from i by step lands on 0 or on -1. */
  ghost predicate Lands(i: nat, step: nat) {
    i > 0 && exists q: nat :: i == q * step || i + 1 == q * step
  }

  /**
   * When the countdown lands, the launches compute i, i - 1, ..., 0 once each and in order, stay in
   * range, and the last one, and only it, masks the plots.
   */
  lemma {:induction false} LaunchesCoverOnce(i: nat, step: nat)
    requires step > 0 && i <= NUM_HASHES && Lands(i, step)
    ensures var ls := LaunchesFrom(i, step);
            && InRange(ls)
            && ls != [] && (forall k | 0 <= k < |ls| :: ls[k].end == -1 <==> k == |ls| - 1)
            && HashesOf(ls) == Downto(i, -1)
    decreases i
  {
    var first := Launch(i, i - step - (if i == step then 1 else 0));
    var rest := LaunchesFrom(i - step, step);
    var ls := LaunchesFrom(i, step);
    assert ls == [first] + rest;
    if i <= step {
      assert i == step || i + 1 == step by {
        LandsNow(i, step);
      }
      assert rest == [] && first.end == -1;
      assert HashesOf(ls) == Downto(i, -1) + HashesOf([]);
    } else {
      LandsLater(i, step);
      LaunchesCoverOnce(i - step, step);
      assert ls[1..] == rest;
      DowntoSplits(i, i - step, -1);
    }
  }

  lemma LandsNow(i: nat, step: nat)
    requires 0 < i <= step
    ensures Lands(i, step) <==> i == step || i + 1 == step
  {
    if i == step || i + 1 == step {
      assert i == 1 * step || i + 1 == 1 * step;
      return;
    }
    if !Lands(i, step) {
      return;
    }
    var q: nat :| i == q * step || i + 1 == q * step;
    if q == 0 {
    } else if q == 1 {
    } else {
      assert q * step >= 2 * step by {
        AtLeast(q, 2, step);
      }
    }
  }

  lemma LandsLater(i: nat, step: nat)
    requires 0 < step < i
    ensures Lands(i - step, step) <==> Lands(i, step)
  {
    forall q: nat | i == q * step || i + 1 == q * step ensures Lands(i - step, step) {
      assert q != 0;
      assert (q - 1) * step == q * step - step;
    }
    forall q: nat | i - step == q * step || i - step + 1 == q * step ensures Lands(i, step) {
      assert (q + 1) * step == q * step + step;
    }
  }

  /** Otherwise no launch ever masks the plots. */
  lemma {:induction false} NoLandingNoMask(i: nat, step: nat)
    requires step > 0 && !Lands(i, step)
    ensures !Masks(LaunchesFrom(i, step))
    decreases i
  {
    if i > 0 {
      var first := Launch(i, i - step - (if i == step then 1 else 0));
      var rest := LaunchesFrom(i - step, step);
      assert LaunchesFrom(i, step) == [first] + rest;
      assert i == step ==> i == 1 * step;
      assert i + 1 == step ==> i + 1 == 1 * step;
      if i > step {
        LandsLater(i, step);
        NoLandingNoMask(i - step, step);
      }
    }
  }

  /** The step divides 8192 or 8193. */
  predicate GoodStep(step: nat)
    requires step > 0
  {
    8192 % step == 0 || 8193 % step == 0
  }

  /** The step that the device uses for a step option: 0 selects 32. */
  function LaunchStep(option: nat): (step: nat)
    ensures step > 0
  {
    if option != 0 then option else 32
  }

  /**
   * The steps for which plot completes and masks the plots are exactly the divisors of 8192 and of
   * 8193; for any other step no launch masks them.
   */
  lemma GoodSteps(step: nat)
    requires step > 0
    ensures GoodStep(step) <==> Masks(LaunchesFrom(NUM_HASHES, step))
  {
    if GoodStep(step) {
      StepLands(step);
      LaunchesCoverOnce(NUM_HASHES, step);
      var ls := LaunchesFrom(NUM_HASHES, step);
      assert ls[|ls| - 1] in ls;
    } else {
      StepLands(step);
      NoLandingNoMask(NUM_HASHES, step);
    }
  }

  lemma StepLands(step: nat)
    requires step > 0
    ensures GoodStep(step) <==> Lands(NUM_HASHES, step)
  {
    if 8192 % step == 0 {
      assert 8192 == 8192 / step * step;
    }
    if 8193 % step == 0 {
      assert 8193 == 8193 / step * step;
    }
    if Lands(NUM_HASHES, step) {
      var q: nat :| NUM_HASHES == q * step || NUM_HASHES + 1 == q * step;
      Divides(q, step);
    }
  }

  lemma Divides(q: nat, step: nat)
    requires step > 0
    ensures q * step % step == 0
  {
    MultipleIsUnique(q * step, step, q);
  }

  lemma MultipleIsUnique(a: nat, step: nat, q: nat)
    requires step > 0 && a == q * step
    ensures a % step == 0
  {
    var d, r := a / step, a % step;
    assert a == d * step + r;
    assert (q - d) * step == r;
    if q - d >= 1 {
      AtLeast(q - d, 1, step);
    } else if q - d <= -1 {
      AtLeast(d - q, 1, step);
    }
  }

  // ---- running the launches ------------------------------------------------------------

  /** Without a step option 256 launches plot a nonce, of 32 hashes each, and the last one masks too. */
  lemma DefaultLaunches()
    ensures var ls := LaunchesFrom(NUM_HASHES, LaunchStep(0));
            |ls| == 256 && forall k | 0 <= k < 256 :: ls[k].start == 8192 - 32 * k && ls[k].end == ls[k].start - 32
                                                                            - if k == 255 then 1 else 0
  {
    LaunchesOf32(256);
  }

  lemma {:induction false} LaunchesOf32(n: nat)
    ensures var ls := LaunchesFrom(32 * n, 32);
            |ls| == n && forall k | 0 <= k < n :: ls[k].start == 32 * (n - k) && ls[k].end == ls[k].start - 32
                                                                            - if k == n - 1 then 1 else 0
  {
    if n > 0 {
      LaunchesOf32(n - 1);
      assert LaunchesFrom(32 * n, 32)[1..] == LaunchesFrom(32 * (n - 1), 32);
    }
  }

  class Device {
    const step: nat
    const gws: nat
    const buf: array<word>

    ghost predicate Valid()
    {
      && step > 0
      && buf.Length == gws * NONCE_SIZE_WORDS
      && gws % 16 == 0
    }

    /** A step of 0 selects 32. The contents of a fresh device buffer are unknown. */
    constructor (step0: nat, size: nat)
      requires size % 16 == 0
      ensures Valid() && gws == size && step == LaunchStep(step0) && fresh(buf)
    {
      step := LaunchStep(step0);
      gws := size;
      buf := new word[size * NONCE_SIZE_WORDS];
    }

    /** One launch: every work item, here in the order of its index. */
    method RunLaunch(startNonce: bv64, plotIdBe: bv64, l: Launch, nonces: nat)
      requires Valid() && nonces <= gws && nonces <= ADDRESSABLE
      requires 0 < l.start <= NUM_HASHES && l.end < l.start
      requires forall g | 0 <= g < nonces :: Grown(buf[..], g, l.start, ItemSeed(plotIdBe, startNonce, g))
      modifies buf
      ensures forall g | 0 <= g < nonces :: Reached(buf[..], g, l.end, ItemSeed(plotIdBe, startNonce, g))
      ensures forall at | 0 <= at < buf.Length && OwnerOf(at) >= nonces :: buf[at] == old(buf[at])
    {
      hide Grown, Finished, ItemSeed, OwnerOf;
      ghost var was := buf[..];
      for gid := 0 to gws
        invariant forall g | 0 <= g < nonces ::
          if g < gid then Reached(buf[..], g, l.end, ItemSeed(plotIdBe, startNonce, g))
          else Grown(buf[..], g, l.start, ItemSeed(plotIdBe, startNonce, g))
        invariant forall at | 0 <= at < buf.Length && OwnerOf(at) >= nonces :: buf[at] == was[at]
      {
        ghost var before := buf[..];
        if gid < nonces {
          FitsBelow(gws, gid);
        }
        WorkItem(buf, startNonce, plotIdBe, l.start, l.end, nonces, gid);
        forall g | 0 <= g < nonces && g != gid
          ensures Reached(before, g, l.end, ItemSeed(plotIdBe, startNonce, g))
               == Reached(buf[..], g, l.end, ItemSeed(plotIdBe, startNonce, g))
          ensures Grown(before, g, l.start, ItemSeed(plotIdBe, startNonce, g))
               == Grown(buf[..], g, l.start, ItemSeed(plotIdBe, startNonce, g))
        {
          FitsBelow(gws, g);
          ProgressKept(before, buf[..], gid, g, l.start, l.end, ItemSeed(plotIdBe, startNonce, g));
        }
        assert gid >= nonces ==> buf[..] == before;
      }
    }

    /**
     * The whole plot: the launches in order, then the read-back of the entire device buffer to
     * position off of the host block. The chain of every nonce asked for is complete, whatever the
     * device buffer held, and it is masked exactly if the step is a good one. The host block
     * changes nowhere else.
     */
    method Plot(plotId: bv64, startNonce: bv64, nonces0: nat, host: array<word>, off: nat)
      requires Valid() && Min(nonces0, gws) <= ADDRESSABLE
      requires off + buf.Length <= host.Length && host != buf
      modifies buf, host
      ensures host[off..off + buf.Length] == buf[..]
      ensures forall g | 0 <= g < Min(nonces0, gws) ::
        Plotted(buf[..], g, ItemSeed(HtonUll(plotId), startNonce, g), GoodStep(step))
      ensures forall at | 0 <= at < buf.Length && OwnerOf(at) >= Min(nonces0, gws) :: buf[at] == old(buf[at])
      ensures host[..off] == old(host[..off]) && host[off + buf.Length..] == old(host[off + buf.Length..])
    {
      hide Grown, Finished, ItemSeed, OwnerOf, HtonUll, Lands, GoodStep;
      var nonces := Min(nonces0, gws);
      var idBe := HtonUll(plotId);
      forall g | 0 <= g < nonces ensures Grown(buf[..], g, NUM_HASHES, ItemSeed(idBe, startNonce, g)) {
        FitsBelow(gws, g);
        NothingGrown(buf[..], g, ItemSeed(idBe, startNonce, g));
      }
      var i: int := NUM_HASHES;
      StepLands(step);
      ghost var last := NUM_HASHES;
      while i > 0
        invariant i <= NUM_HASHES && (i > 0 ==> last == i)
        invariant i > 0 ==> (Lands(i, step) <==> GoodStep(step))
        invariant i <= 0 ==> last < 0 && (last == -1 <==> GoodStep(step))
        invariant last <= NUM_HASHES
        invariant forall g | 0 <= g < nonces :: Reached(buf[..], g, last, ItemSeed(idBe, startNonce, g))
        invariant forall at | 0 <= at < buf.Length && OwnerOf(at) >= nonces :: buf[at] == old(buf[at])
        decreases i
        modifies buf
      {
        var launch := Launch(i, i - step - (if i == step then 1 else 0));
        if i > step {
          LandsLater(i, step);
        } else {
          LandsNow(i, step);
        }
        RunLaunch(startNonce, idBe, launch, nonces);
        last := launch.end;
        i := i - step;
      }
      forall g | 0 <= g < nonces ensures Plotted(buf[..], g, ItemSeed(idBe, startNonce, g), GoodStep(step)) {
        assert Reached(buf[..], g, last, ItemSeed(idBe, startNonce, g));
      }
      ghost var was, dev := host[..], buf[..];
      forall k | 0 <= k < buf.Length {
        host[off + k] := buf[k];
      }
      assert buf[..] == dev;
      assert host[off..off + buf.Length] == dev;
      assert was == old(host[..]);
      assert host[..off] == was[..off] && host[off + buf.Length..] == was[off + buf.Length..];
    }
  }

  lemma FitsBelow(gws: nat, gid: nat)
    requires gws % 16 == 0 && gid < gws && gid < ADDRESSABLE
    ensures Fits(gws * NONCE_SIZE_WORDS, gid)
  {
    var q := gws / 16;
    assert gws == 16 * q;
    assert gid / 16 < q;
  }

  lemma NothingGrown(flat: seq<word>, gid: nat, seed: seq<word>)
    requires Fits(|flat|, gid)
    ensures Grown(flat, gid, NUM_HASHES, seed)
  {
    hide ViewOf, WordChain;
    WordChainStart(seed);
    assert ViewOf(flat, gid)[8 * NUM_HASHES..] == [];
  }

  /** A work item leaves the progress of every other nonce as it was. */
  lemma ProgressKept(was: seq<word>, now: seq<word>, gid: nat, other: nat, start: int, end: int, seed: seq<word>)
    requires OthersKept(was, now, gid) && other != gid && Fits(|was|, other)
    requires 0 < start <= NUM_HASHES && end < start
    ensures Reached(was, other, end, seed) == Reached(now, other, end, seed)
    ensures Grown(was, other, start, seed) == Grown(now, other, start, seed)
  {
    ViewKept(was, now, gid, other);
    hide ViewOf, WordChain, MaskedWord, OwnerOf;
  }

  lemma ViewKept(was: seq<word>, now: seq<word>, gid: nat, other: nat)
    requires OthersKept(was, now, gid) && other != gid && Fits(|was|, other)
    ensures ViewOf(was, other) == ViewOf(now, other)
  {
    hide Address, OwnerOf, HashAt, WordAt;
    forall k | 0 <= k < NONCE_SIZE_WORDS ensures ViewOf(was, other)[k] == ViewOf(now, other)[k] {
      AddressDecodes(|was|, other, k / 8, k % 8);
    }
  }

  /**
   * The finished views of the first n nonces, and unchanged words elsewhere, fix the whole buffer.
   * So one launch over (8192, -1), and the launches of any good step, leave the same buffer.
   */
  lemma FinishedBufferIsUnique(init: seq<word>, x: seq<word>, y: seq<word>, groups: nat, n: nat, seeds: seq<seq<word>>)
    requires |init| == |x| == |y| == groups * 1048576 && n == |seeds| <= 16 * groups
    requires forall g | 0 <= g < n :: Finished(x, g, seeds[g]) && Finished(y, g, seeds[g])
    requires forall at | 0 <= at < |init| && OwnerOf(at) >= n :: x[at] == y[at] == init[at]
    ensures x == y
  {
    hide MaskedWord, OwnerOf, Address, HashAt, WordAt;
    forall at | 0 <= at < |x| ensures x[at] == y[at] {
      AddressCovers(groups, at);
      var g := OwnerOf(at);
      if g < n {
        assert Finished(x, g, seeds[g]) && Finished(y, g, seeds[g]);
        var k := 8 * HashAt(at) + WordAt(at);
        ViewAt(x, g, HashAt(at), WordAt(at));
        ViewAt(y, g, HashAt(at), WordAt(at));
        assert ViewOf(x, g)[k] == MaskedWord(seeds[g], k) == ViewOf(y, g)[k];
      }
    }
  }
}
