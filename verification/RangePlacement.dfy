/** Where the allocated ranges lie: when they are contiguous, and which existing plots they meet. */
module RangePlacement {
  import opened CpuPlotter
  import opened Tasks
  import opened RangeAllocator

  // ---- contiguous ranges -----------------------------------------------------------------

  lemma {:induction false} SkippedAtMost(q: Request, sn: nat, drives: seq<string>, x: nat)
    ensures Skipped(q, sn, drives) <= x <==>
            sn <= x && forall d | d in drives && d in q.disk :: LastEnd(q.disk[d], q.start) <= x
  {
    hide LastEnd;
    if drives != [] {
      var before, last := drives[..|drives| - 1], drives[|drives| - 1];
      SkippedAtMost(q, sn, before, x);
      assert drives == before + [last];
    }
  }

  /**
   * A range starts where the one before it ends (the first one: at the first nonce) if and only if
   * the matching plots of all drives first seen in between end there or before.
   */
  lemma ContiguousIff(q: Request, p: Plan, i: nat)
    requires Consistent(q, p) && i < |p.log|
    ensures SeenBy(p.log[..i]) <= p.log[i].scanned <= |p.writers|
    ensures p.log[i].r.sn == Reached(q, p.log[..i]) <==>
            forall d | d in p.writers[SeenBy(p.log[..i])..p.log[i].scanned] ::
              d in q.disk && Past(q.disk[d], q.start, Reached(q, p.log[..i]))
  {
    WritersExist(q, p);
    ChainedAt(q, p, i);
    var end, drives := Reached(q, p.log[..i]), p.writers[SeenBy(p.log[..i])..p.log[i].scanned];
    hide Consistent, Past, LastEnd, Skipped, Reached, SeenBy;
    SkippedAtMost(q, end, drives, end);
    SkippedAtMost(q, end, drives, p.log[i].r.sn);
    forall d | d in drives
      ensures d in q.disk && (LastEnd(q.disk[d], q.start) <= end <==> Past(q.disk[d], q.start, end))
    {
      assert d in p.writers;
      LastEndIs(q.disk[d], q.start, end);
    }
  }

  lemma ChainedAt(q: Request, p: Plan, i: nat)
    requires Consistent(q, p) && i < |p.log|
    ensures SeenBy(p.log[..i]) <= p.log[i].scanned <= |p.writers|
    ensures p.log[i].r.sn ==
            Skipped(q, Reached(q, p.log[..i]), p.writers[SeenBy(p.log[..i])..p.log[i].scanned])
  {
    hide Ascending, Sized, Clear, Distinct, SeenPast, KeyedByWriters, AllBooked, AllFullSized, Granted, Skipped,
         Reached, SeenBy;
    var seen := SeenBy(p.log[..i]);
    assert Placed(q, p.log[..i], p.writers[..p.log[i].scanned], p.log[i].r.sn);
    assert p.writers[..p.log[i].scanned][seen..] == p.writers[seen..p.log[i].scanned];
  }

  function EndBefore(log: seq<Grant>, base: nat, i: nat): nat
    requires i < |log|
  {
    if i == 0 then base else EndOf(log[i - 1].r)
  }

  /** The first range starts at base, and every other one where the one before it ends. */
  ghost predicate Contiguous(log: seq<Grant>, base: nat) {
    forall i | 0 <= i < |log| :: log[i].r.sn == EndBefore(log, base, i)
  }

  /** All matching plots on the drives that are listed and there end at or before the first nonce. */
  ghost predicate NothingAhead(start: nat, disk: map<string, Drive>, drivers: seq<string>) {
    forall d | d in drivers && d in disk :: Past(disk[d], start, start)
  }

  lemma ContiguousWhenNothingAhead(q: Request, drivers: seq<string>)
    requires NothingAhead(q.start, q.disk, drivers)
    ensures Contiguous(Allocated(q, drivers).log, q.start)
  {
    hide Consistent, Past, Allocated, SeenBy;
    var p := Allocated(q, drivers);
    AllocatedKeeps(q, drivers);
    forall i | 0 <= i < |p.log| ensures p.log[i].r.sn == EndBefore(p.log, q.start, i) {
      ContiguousIff(q, p, i);
      var end := Reached(q, p.log[..i]);
      ReachedLater(q, p, i);
      forall d | d in p.writers[SeenBy(p.log[..i])..p.log[i].scanned]
        ensures d in q.disk && Past(q.disk[d], q.start, end)
      {
        assert d in p.writers;
        PastLater(q.disk[d], q.start, q.start, end);
      }
    }
  }

  lemma ReachedLater(q: Request, p: Plan, i: nat)
    requires Consistent(q, p) && i < |p.log|
    ensures q.start <= Reached(q, p.log[..i])
  {
    hide Sized, Clear, Distinct, SeenPast, KeyedByWriters, AllBooked, AllFullSized, Granted, Chained;
  }

  /** The same drives with the same plots, whatever space there is. */
  ghost predicate SamePlots(disk: map<string, Drive>, other: map<string, Drive>) {
    disk.Keys == other.Keys && forall d | d in disk :: disk[d].plots == other[d].plots
  }

  /** Drives of which only one has room. */
  function OnlyRoom(disk: map<string, Drive>, drive: string, n: nat): map<string, Drive> {
    map d | d in disk :: Drive(if d == drive then n * PLOT_SIZE else 0, 0, disk[d].plots)
  }

  /**
   * What a caller can check beforehand: the ranges are contiguous from the first nonce on, whatever
   * is wanted and whatever space the drives have, if and only if no matching plot ends after it.
   */
  lemma AlwaysContiguousIff(start: nat, cap: nat, disk: map<string, Drive>, drivers: seq<string>)
    requires 0 < cap < INT32_MAX && cap % 64 == 0
    ensures NothingAhead(start, disk, drivers) <==>
            forall q: Request | q.start == start && q.cap == cap && SamePlots(q.disk, disk) ::
              Contiguous(Allocated(q, drivers).log, start)
  {
    hide Allocated, Contiguous;
    if NothingAhead(start, disk, drivers) {
      forall q: Request | q.start == start && q.cap == cap && SamePlots(q.disk, disk)
        ensures Contiguous(Allocated(q, drivers).log, start)
      {
        SameAhead(start, disk, q.disk, drivers);
        ContiguousWhenNothingAhead(q, drivers);
      }
    } else {
      var d :| d in drivers && d in disk && !Past(disk[d], start, start);
      var q := Request(start, 64, cap, OnlyRoom(disk, d, 64));
      GapBeforeFirst(q, drivers, d);
      assert q.start == start && q.cap == cap && SamePlots(q.disk, disk);
    }
  }

  lemma SameAhead(start: nat, disk: map<string, Drive>, other: map<string, Drive>, drivers: seq<string>)
    requires NothingAhead(start, disk, drivers) && SamePlots(other, disk)
    ensures NothingAhead(start, other, drivers)
  {
    forall d | d in drivers && d in other ensures Past(other[d], start, start) {
      assert Past(disk[d], start, start);
    }
  }

  lemma GapBeforeFirst(q: Request, drivers: seq<string>, drive: string)
    requires drive in drivers && drive in q.disk && !Past(q.disk[drive], q.start, q.start)
    requires q.total == 64 && 0 < q.cap < INT32_MAX && q.cap % 64 == 0
    requires forall d | d in q.disk :: Found(q.disk[d]) == if d == drive then 64 * PLOT_SIZE else 0
    ensures !Contiguous(Allocated(q, drivers).log, q.start)
  {
    hide Consistent, Allocated, Past, Found, Maximal;
    var p := Allocated(q, drivers);
    AllocatedKeeps(q, drivers);
    SomethingGranted(q, p, drivers, drive);
    GrantsWhereRoom(q, p, drive);
    FirstIsPast(q, p);
    assert p.log[0].drive == drive;
  }

  lemma SomethingGranted(q: Request, p: Plan, drivers: seq<string>, drive: string)
    requires Consistent(q, p) && Maximal(q, p, drivers) && drive in drivers && drive in q.disk && drive in p.writers
    requires q.total >= 8 && Found(q.disk[drive]) >= 8 * PLOT_SIZE
    ensures p.log != []
  {
    hide Ascending, Sized, Clear, Distinct, SeenPast, KeyedByWriters, AllFullSized, Chained, Found;
    assert Booked(q, p, drive);
  }

  /** A drive without space gets no range. */
  lemma GrantsWhereRoom(q: Request, p: Plan, drive: string)
    requires Consistent(q, p)
    requires forall d | d in q.disk && d != drive :: Found(q.disk[d]) == 0
    ensures forall i | 0 <= i < |p.log| :: p.log[i].drive == drive
  {
    hide Ascending, Clear, Distinct, SeenPast, KeyedByWriters, AllFullSized, Chained, Found, Granted, BytesOn, RangesOn;
    GrantedOnWriters(q, p);
    forall i | 0 <= i < |p.log| ensures p.log[i].drive == drive {
      BytesAtLeast(p.log, i);
      assert Booked(q, p, p.log[i].drive);
    }
  }

  lemma GrantedOnWriters(q: Request, p: Plan)
    requires Consistent(q, p)
    ensures forall i | 0 <= i < |p.log| :: p.log[i].drive in p.writers
  {
    hide Ascending, Sized, Distinct, SeenPast, KeyedByWriters, AllBooked, AllFullSized, Chained, Granted, Past;
  }

  lemma {:induction false} BytesAtLeast(log: seq<Grant>, i: nat)
    requires i < |log|
    ensures BytesOn(log, log[i].drive) >= log[i].r.n * PLOT_SIZE
  {
    if i < |log| - 1 {
      BytesAtLeast(log[..|log| - 1], i);
    }
  }

  lemma FirstIsPast(q: Request, p: Plan)
    requires Consistent(q, p) && p.log != []
    ensures p.log[0].drive in q.disk && Past(q.disk[p.log[0].drive], q.start, p.log[0].r.sn)
  {
    hide Ascending, Sized, Distinct, SeenPast, KeyedByWriters, AllBooked, AllFullSized, Chained, Granted, Past;
    var g := p.log[0];
    var w :| 0 <= w < g.scanned && p.writers[w] == g.drive;
    assert Past(q.disk[p.writers[w]], q.start, g.r.sn);
  }

  // ---- existing plots --------------------------------------------------------------------

  predicate Has(r: Range, x: nat) {
    r.sn <= x < EndOf(r)
  }

  /** Two ranges have a nonce in common. */
  ghost predicate Meets(r: Range, s: Range) {
    exists x: nat :: Has(r, x) && Has(s, x)
  }

  lemma MeetsByBounds(r: Range, s: Range)
    ensures Meets(r, s) <==> r.n > 0 && s.n > 0 && r.sn < EndOf(s) && s.sn < EndOf(r)
  {
    if r.n > 0 && s.n > 0 && r.sn < EndOf(s) && s.sn < EndOf(r) {
      var x := if r.sn < s.sn then s.sn else r.sn;
      assert Has(r, x) && Has(s, x);
    }
  }

  /**
   * A range meets a plot of a known drive if and only if their bounds say so, and the plot does not
   * match or its drive was first seen after the range was granted.
   */
  lemma MeetsIff(q: Request, p: Plan, i: nat, w: nat, k: nat)
    requires Consistent(q, p) && i < |p.log| && w < |p.writers| && p.writers[w] in q.disk
    requires k < |q.disk[p.writers[w]].plots|
    ensures var r, plot := p.log[i].r, q.disk[p.writers[w]].plots[k];
            Meets(r, plot) <==>
            && plot.n > 0 && r.sn < EndOf(plot) && plot.sn < EndOf(r)
            && (!Matching(plot, q.start) || p.log[i].scanned <= w)
  {
    hide Meets, Matching;
    var r, plot := p.log[i].r, q.disk[p.writers[w]].plots[k];
    GrantsArePositive(q, p);
    MeetsByBounds(r, plot);
    if Matching(plot, q.start) && w < p.log[i].scanned {
      SeenIsPast(q, p, i, w);
    }
  }

  lemma GrantsArePositive(q: Request, p: Plan)
    requires Consistent(q, p)
    ensures forall i | 0 <= i < |p.log| :: p.log[i].r.n > 0 && q.start <= p.log[i].r.sn && 0 < p.log[i].scanned
  {
    hide Distinct, SeenPast, KeyedByWriters, AllBooked, AllFullSized, Chained, Granted, Past;
  }

  lemma SeenIsPast(q: Request, p: Plan, i: nat, w: nat)
    requires Consistent(q, p) && i < |p.log| && w < p.log[i].scanned
    ensures w < |p.writers| && p.writers[w] in q.disk && Past(q.disk[p.writers[w]], q.start, p.log[i].r.sn)
  {
    hide Ascending, Sized, Distinct, SeenPast, KeyedByWriters, AllBooked, AllFullSized, Chained, Granted, Past;
  }

  lemma PrefixContiguous(log: seq<Grant>, base: nat)
    requires Contiguous(log, base) && log != []
    ensures Contiguous(log[..|log| - 1], base)
  {
    var before := log[..|log| - 1];
    forall i | 0 <= i < |before| ensures before[i].r.sn == EndBefore(before, base, i) {
      SameBefore(before, log, base, i);
    }
  }

  /** Some range has this nonce. */
  ghost predicate Covered(log: seq<Grant>, x: nat) {
    exists i :: 0 <= i < |log| && Has(log[i].r, x)
  }

  lemma CoveredByOneMore(log: seq<Grant>, x: nat)
    requires log != []
    ensures Covered(log, x) <==> Covered(log[..|log| - 1], x) || Has(log[|log| - 1].r, x)
  {
    hide Has;
    var before := log[..|log| - 1];
    if Covered(log, x) {
      var i :| 0 <= i < |log| && Has(log[i].r, x);
      assert i < |before| ==> Has(before[i].r, x);
    }
    if Covered(before, x) {
      var i :| 0 <= i < |before| && Has(before[i].r, x);
      assert Has(log[i].r, x);
    }
  }

  lemma {:induction false} ContiguousCovers(log: seq<Grant>, base: nat, x: nat)
    requires Contiguous(log, base)
    ensures log != [] ==> EndOf(log[|log| - 1].r) == base + Granted(log)
    ensures base <= x < base + Granted(log) <==> Covered(log, x)
  {
    hide Covered, Contiguous;
    if log == [] {
      NothingCovered(x);
    } else {
      var before, last := log[..|log| - 1], log[|log| - 1];
      PrefixContiguous(log, base);
      ContiguousCovers(before, base, x);
      CoveredByOneMore(log, x);
      LastStarts(log, base);
    }
  }

  lemma NothingCovered(x: nat)
    ensures !Covered([], x)
  {
  }

  lemma LastStarts(log: seq<Grant>, base: nat)
    requires Contiguous(log, base) && log != []
    ensures log[|log| - 1].r.sn == if |log| == 1 then base else EndOf(log[..|log| - 1][|log| - 2].r)
  {
    assert log[|log| - 1].r.sn == EndBefore(log, base, |log| - 1);
  }

  /**
   * With nothing ahead, the run as a whole is one range: an existing plot meets one of the files if
   * and only if it meets that range, and no matching plot on the drives does.
   */
  lemma RunIsOneRange(q: Request, drivers: seq<string>, plot: Range)
    requires NothingAhead(q.start, q.disk, drivers)
    ensures var log := Allocated(q, drivers).log;
            (exists i :: 0 <= i < |log| && Meets(log[i].r, plot)) <==> Meets(Range(q.start, Granted(log)), plot)
    ensures (exists d :: d in drivers && d in q.disk && plot in q.disk[d].plots) && Matching(plot, q.start) ==>
            !Meets(Range(q.start, Granted(Allocated(q, drivers).log)), plot)
  {
    hide Allocated, Contiguous, Granted, Matching;
    var log := Allocated(q, drivers).log;
    var run := Range(q.start, Granted(log));
    ContiguousWhenNothingAhead(q, drivers);
    forall x: nat ensures Has(run, x) <==> Covered(log, x) {
      ContiguousCovers(log, q.start, x);
    }
    if Meets(run, plot) {
      var x: nat :| Has(run, x) && Has(plot, x);
      var i :| 0 <= i < |log| && Has(log[i].r, x);
      assert Meets(log[i].r, plot);
    }
  }

  // ---- when all ranges keep off matching plots ------------------------------------------------

  /** No range has a nonce of a matching plot on the drives that are listed and there. */
  ghost predicate KeepsOff(q: Request, drivers: seq<string>, log: seq<Grant>) {
    forall i, d, k | 0 <= i < |log| && d in drivers && d in q.disk && 0 <= k < |q.disk[d].plots| ::
      Matching(q.disk[d].plots[k], q.start) ==> !Meets(log[i].r, q.disk[d].plots[k])
  }

  /** The place in the list of the first drive that is there. */
  ghost predicate Leads(disk: map<string, Drive>, drivers: seq<string>, lead: nat) {
    lead < |drivers| && drivers[lead] in disk && forall j | 0 <= j < lead :: drivers[j] !in disk
  }

  /** Where the first range starts. */
  function Begin(start: nat, d: Drive): nat {
    if start < LastEnd(d, start) then LastEnd(d, start) else start
  }

  /** On all drives but the first one, matching plots that are not empty end before the first range. */
  ghost predicate OthersBefore(start: nat, disk: map<string, Drive>, drivers: seq<string>, lead: nat)
    requires Leads(disk, drivers, lead)
  {
    forall d, k | d in drivers && d in disk && 0 <= k < |disk[d].plots| && d != drivers[lead] ::
      Matching(disk[d].plots[k], start) && disk[d].plots[k].n > 0 ==>
      EndOf(disk[d].plots[k]) <= Begin(start, disk[drivers[lead]])
  }

  /**
   * The other thing a caller can check beforehand: no range meets a matching plot, whatever is wanted
   * and whatever space there is, if and only if such plots on drives other than the first one end
   * where the first range starts or before. Without any drive there are no ranges.
   */
  lemma AlwaysKeepsOffIff(start: nat, cap: nat, disk: map<string, Drive>, drivers: seq<string>, lead: nat)
    requires 0 < cap < INT32_MAX && cap % 64 == 0 && Leads(disk, drivers, lead)
    ensures OthersBefore(start, disk, drivers, lead) <==>
            forall q: Request | q.start == start && q.cap == cap && SamePlots(q.disk, disk) ::
              KeepsOff(q, drivers, Allocated(q, drivers).log)
  {
    hide Allocated, KeepsOff, Matching, LastEnd, Begin;
    if OthersBefore(start, disk, drivers, lead) {
      forall q: Request | q.start == start && q.cap == cap && SamePlots(q.disk, disk)
        ensures KeepsOff(q, drivers, Allocated(q, drivers).log)
      {
        SameBegin(start, q.disk[drivers[lead]], disk[drivers[lead]]);
        BeforeKeepsOff(q, drivers, lead);
      }
    } else {
      var d, k :| d in drivers && d in disk && 0 <= k < |disk[d].plots| && d != drivers[lead]
        && Matching(disk[d].plots[k], start) && disk[d].plots[k].n > 0
        && EndOf(disk[d].plots[k]) > Begin(start, disk[drivers[lead]]);
      var base, first := Begin(start, disk[drivers[lead]]), disk[d].plots[k].sn;
      var total := if base < first then (first - base + 1) * 64 else 64;
      var q := Request(start, total, cap, OnlyRoom(disk, drivers[lead], total));
      SameBegin(start, q.disk[drivers[lead]], disk[drivers[lead]]);
      RunsInto(q, drivers, lead, d, k);
      assert q.start == start && q.cap == cap && SamePlots(q.disk, disk);
    }
  }

  lemma SameBegin(start: nat, d: Drive, other: Drive)
    requires d.plots == other.plots
    ensures Begin(start, d) == Begin(start, other)
  {
  }

  lemma BeforeKeepsOff(q: Request, drivers: seq<string>, lead: nat)
    requires Leads(q.disk, drivers, lead) && OthersBefore(q.start, q.disk, drivers, lead)
    ensures KeepsOff(q, drivers, Allocated(q, drivers).log)
  {
    hide Consistent, Allocated, Meets, Matching, LastEnd, Past;
    var p := Allocated(q, drivers);
    AllocatedKeeps(q, drivers);
    LeadGoesFirst(q, drivers, lead);
    GrantsArePositive(q, p);
    forall i, d, k | 0 <= i < |p.log| && d in drivers && d in q.disk && 0 <= k < |q.disk[d].plots|
                     && Matching(q.disk[d].plots[k], q.start)
      ensures !Meets(p.log[i].r, q.disk[d].plots[k])
    {
      MeetsByBounds(p.log[i].r, q.disk[d].plots[k]);
      SeenIsPast(q, p, i, 0);
      LastEndIs(q.disk[drivers[lead]], q.start, p.log[i].r.sn);
      if d == drivers[lead] {
        PastPlot(q.disk[d], q.start, p.log[i].r.sn, k);
      }
    }
  }

  lemma PastPlot(d: Drive, start: nat, sn: nat, k: nat)
    requires Past(d, start, sn) && k < |d.plots| && Matching(d.plots[k], start)
    ensures EndOf(d.plots[k]) <= sn
  {
  }

  /** The plan once the first drive was filled in the first pass. */
  ghost function Led(q: Request, driver: string): (r: Plan)
    requires driver in q.disk
  {
    Filled(q, Known(q, Unplanned(q), driver), driver, 64)
  }

  lemma LeadGoesFirst(q: Request, drivers: seq<string>, lead: nat)
    requires Leads(q.disk, drivers, lead)
    ensures Onward(Led(q, drivers[lead]), Allocated(q, drivers))
    ensures Allocated(q, drivers).writers != [] && Allocated(q, drivers).writers[0] == drivers[lead]
  {
    hide Consistent, Onward, Filled, Known, KeyedByWriters, AllSpent, Spent;
    var none, rest := Unplanned(q), drivers[lead + 1..];
    UnplannedIsConsistent(q);
    assert drivers == drivers[..lead + 1] + rest && drivers[..lead + 1][..lead] == drivers[..lead];
    NoneThere(q, none, drivers[..lead], 64);
    PassedSplit(q, none, drivers[..lead + 1], rest, 64);
    var led := Led(q, drivers[lead]);
    VisitedKeeps(q, none, drivers[lead], 64);
    assert led == Passed(q, none, drivers[..lead + 1], 64);
    PassedKeeps(q, led, rest, 64);
    var first := Passed(q, led, rest, 64);
    PassedKeeps(q, first, drivers, 8);
    OnwardTrans(led, first, Allocated(q, drivers));
    LedWriters(q, drivers[lead]);
    WritersExtend(led, Allocated(q, drivers));
  }

  lemma WritersExtend(p: Plan, after: Plan)
    requires Onward(p, after)
    ensures p.writers <= after.writers && p.log <= after.log
  {
  }

  lemma LedWriters(q: Request, driver: string)
    requires driver in q.disk
    ensures Led(q, driver).writers == [driver]
  {
  }

  lemma {:induction false} NoneThere(q: Request, p: Plan, drivers: seq<string>, unit: nat)
    requires unit > 0 && KeyedByWriters(p) && forall d | d in drivers :: d !in q.disk
    ensures Passed(q, p, drivers, unit) == p
  {
    hide KeyedByWriters;
    if drivers != [] {
      NoneThere(q, p, drivers[..|drivers| - 1], unit);
    }
  }

  lemma {:induction false} PassedSplit(q: Request, p: Plan, a: seq<string>, b: seq<string>, unit: nat)
    requires unit > 0 && KeyedByWriters(p)
    ensures Passed(q, p, a + b, unit) == Passed(q, Passed(q, p, a, unit), b, unit)
  {
    hide KeyedByWriters, Visited;
    if b == [] {
      assert a + b == a;
    } else {
      assert (a + b)[..|a + b| - 1] == a + b[..|b| - 1];
      PassedSplit(q, p, a, b[..|b| - 1], unit);
    }
  }

  /** When the first drive has room for all that is wanted, the ranges reach a plot that ends later. */
  lemma RunsInto(q: Request, drivers: seq<string>, lead: nat, d: string, k: nat)
    requires Leads(q.disk, drivers, lead) && 0 < q.cap < INT32_MAX && q.cap % 64 == 0 && q.total % 64 == 0
    requires Found(q.disk[drivers[lead]]) == q.total * PLOT_SIZE
    requires d in drivers && d in q.disk && k < |q.disk[d].plots| && Matching(q.disk[d].plots[k], q.start)
    requires q.disk[d].plots[k].n > 0 && q.total > 0
    requires q.disk[d].plots[k].sn < Begin(q.start, q.disk[drivers[lead]]) + q.total
    requires EndOf(q.disk[d].plots[k]) > Begin(q.start, q.disk[drivers[lead]])
    ensures !KeepsOff(q, drivers, Allocated(q, drivers).log)
  {
    hide Allocated, Meets, Matching, LastEnd, Led, Onward, Contiguous, Granted, Begin;
    var led, log, plot := Led(q, drivers[lead]), Allocated(q, drivers).log, q.disk[d].plots[k];
    var base := Begin(q.start, q.disk[drivers[lead]]);
    LeadGoesFirst(q, drivers, lead);
    WritersExtend(led, Allocated(q, drivers));
    LedTakesAll(q, drivers[lead]);
    var x := if plot.sn < base then base else plot.sn;
    ContiguousCovers(led.log, base, x);
    var i :| 0 <= i < |led.log| && Has(led.log[i].r, x);
    assert log[i] == led.log[i];
    MeetsAt(log[i].r, plot, x);
  }

  lemma MeetsAt(r: Range, s: Range, x: nat)
    requires Has(r, x) && Has(s, x)
    ensures Meets(r, s)
  {
  }

  lemma LedTakesAll(q: Request, driver: string)
    requires driver in q.disk && 0 < q.cap < INT32_MAX && q.cap % 64 == 0 && q.total % 64 == 0
    requires Found(q.disk[driver]) == q.total * PLOT_SIZE
    ensures Contiguous(Led(q, driver).log, Begin(q.start, q.disk[driver])) && Granted(Led(q, driver).log) == q.total
  {
    hide Filled, LastEnd;
    TakesAll(q, Known(q, Unplanned(q), driver), driver, Begin(q.start, q.disk[driver]));
  }

  lemma {:induction false} TakesAll(q: Request, p: Plan, driver: string, base: nat)
    requires KeyedByWriters(p) && driver in p.writers && 0 < q.cap < INT32_MAX && q.cap % 64 == 0 && p.left % 64 == 0
    requires driver in p.spaces && p.spaces[driver] == p.left * PLOT_SIZE
    requires Contiguous(p.log, base) && p.sn == base + Granted(p.log)
    ensures var r := Filled(q, p, driver, 64);
            Contiguous(r.log, base) && Granted(r.log) == Granted(p.log) + p.left
    decreases p.left
  {
    hide KeyedByWriters, NextFile, Filled, Contiguous, Granted, WithFile;
    KeysThere(p, driver);
    FilledNext(q, p, driver, 64);
    TakesSmaller(p.left, q.cap);
    var n := NextFile(p.left, q.cap, p.spaces[driver], 64);
    if n > 0 {
      ContiguousGrows(p, driver, n, base);
      TakesAll(q, WithFile(p, driver, n), driver, base);
    }
  }

  lemma ContiguousGrows(p: Plan, driver: string, n: nat, base: nat)
    requires Contiguous(p.log, base) && p.sn == base + Granted(p.log)
    requires driver in p.spaces && driver in p.tasks && n <= p.left
    ensures var next := WithFile(p, driver, n);
            && Contiguous(next.log, base) && next.sn == base + Granted(next.log)
            && Granted(next.log) == Granted(p.log) + n
            && next.left == p.left - n && next.spaces[driver] == p.spaces[driver] - n * PLOT_SIZE
            && next.writers == p.writers && driver in next.spaces
  {
    hide Contiguous;
    ContiguousCovers(p.log, base, 0);
    var log := WithFile(p, driver, n).log;
    assert log[..|log| - 1] == p.log;
    OneMoreContiguous(p.log, base, log[|p.log|]);
  }

  lemma OneMoreContiguous(log: seq<Grant>, base: nat, g: Grant)
    requires Contiguous(log, base) && g.r.sn == if log == [] then base else EndOf(log[|log| - 1].r)
    ensures Contiguous(log + [g], base)
  {
    forall i | 0 <= i < |log| + 1 ensures (log + [g])[i].r.sn == EndBefore(log + [g], base, i) {
      OneMoreAt(log, base, g, i);
    }
  }

  lemma OneMoreAt(log: seq<Grant>, base: nat, g: Grant, i: nat)
    requires Contiguous(log, base) && g.r.sn == if log == [] then base else EndOf(log[|log| - 1].r)
    requires i <= |log|
    ensures (log + [g])[i].r.sn == EndBefore(log + [g], base, i)
  {
    hide Contiguous, EndBefore;
    if i < |log| {
      SameBefore(log, log + [g], base, i);
      ContiguousAt(log, base, i);
    } else {
      BeforeLast(log, base, g);
    }
  }

  lemma BeforeLast(log: seq<Grant>, base: nat, g: Grant)
    ensures EndBefore(log + [g], base, |log|) == if log == [] then base else EndOf(log[|log| - 1].r)
  {
  }

  lemma SameBefore(log: seq<Grant>, more: seq<Grant>, base: nat, i: nat)
    requires i < |log| && log <= more
    ensures more[i] == log[i] && EndBefore(more, base, i) == EndBefore(log, base, i)
  {
  }

  lemma TakesSmaller(left: nat, cap: nat)
    requires 0 < cap < INT32_MAX && cap % 64 == 0 && left % 64 == 0
    ensures NextFile(left, cap, left * PLOT_SIZE, 64) == Smaller(left, cap)
    ensures Smaller(left, cap) % 64 == 0 && (left - Smaller(left, cap)) % 64 == 0
  {
  }

  // ---- inputs on which the allocator leaves gaps, meets plots or passes a drive over ----------------

  /** The first visit to a drive that takes one file. */
  lemma OneFile(q: Request, p: Plan, driver: string, unit: nat)
    requires unit > 0 && KeyedByWriters(p) && driver in q.disk && driver !in p.writers
    requires var space := Found(q.disk[driver]);
             var n := NextFile(p.left, q.cap, space, unit);
             n > 0 && NextFile(p.left - n, q.cap, space - n * PLOT_SIZE, unit) == 0
    ensures var n, last := NextFile(p.left, q.cap, Found(q.disk[driver]), unit), LastEnd(q.disk[driver], q.start);
            var sn := if p.sn < last then last else p.sn;
            var r := Visited(q, p, driver, unit);
            && r.sn == sn + n && r.left == p.left - n && r.writers == p.writers + [driver]
            && r.log == p.log + [Grant(driver, Range(sn, n), |p.writers| + 1)]
  {
    hide NextFile, Filled, KeyedByWriters, LastEnd, Found;
    var space := Found(q.disk[driver]);
    var known := Known(q, p, driver);
    FilledNext(q, known, driver, unit);
    FilledNext(q, WithFile(known, driver, NextFile(p.left, q.cap, space, unit)), driver, unit);
  }

  lemma PassedTwo(q: Request, p: Plan, a: string, b: string, unit: nat)
    requires unit > 0 && KeyedByWriters(p)
    ensures Passed(q, p, [a], unit) == Visited(q, p, a, unit)
    ensures Passed(q, p, [a, b], unit) == Visited(q, Visited(q, p, a, unit), b, unit)
  {
    hide Visited, KeyedByWriters;
    assert [a, b][..1] == [a] && [a][..0] == [];
  }

  /** Nothing happens any more once all that was wanted is granted and all drives are known. */
  lemma {:induction false} NothingLeft(q: Request, p: Plan, drivers: seq<string>, unit: nat)
    requires unit > 0 && KeyedByWriters(p) && p.left == 0 && forall d | d in drivers :: d in p.writers
    ensures Passed(q, p, drivers, unit) == p
  {
    hide KeyedByWriters, Filled;
    if drivers != [] {
      var last := drivers[|drivers| - 1];
      NothingLeft(q, p, drivers[..|drivers| - 1], unit);
      KeysThere(p, last);
      FilledNext(q, p, last, unit);
    }
  }

  /** The plots that a drive holds may open a gap between two ranges. */
  lemma GapBetweenDrives(q: Request, a: string, b: string)
    requires a != b && q == Request(0, 128, 64, map[a := Drive(64 * PLOT_SIZE, 0, []),
                                                    b := Drive(64 * PLOT_SIZE, 0, [Range(1000, 8)])])
    ensures Allocated(q, [a, b]).log == [Grant(a, Range(0, 64), 1), Grant(b, Range(1008, 64), 2)]
    ensures !Contiguous(Allocated(q, [a, b]).log, 0)
  {
    hide NextFile, Visited, KeyedByWriters, Contiguous, LastEnd, Passed, Matching, Truncated, Consistent;
    UnplannedIsConsistent(q);
    PassedTwo(q, Unplanned(q), a, b, 64);
    FilesOf64();
    EndOfNone(q.disk[a], 0);
    EndOfOnly(q.disk[b], Range(1000, 8), 0);
    SameWindow(Range(1000, 8));
    OneFile(q, Unplanned(q), a, 64);
    var first := Visited(q, Unplanned(q), a, 64);
    OneFile(q, first, b, 64);
    NothingLeft(q, Visited(q, first, b, 64), [a, b], 8);
    ContiguousAt(Allocated(q, [a, b]).log, 0, 1);
  }

  lemma ContiguousAt(log: seq<Grant>, base: nat, i: nat)
    requires i < |log|
    ensures Contiguous(log, base) ==> log[i].r.sn == EndBefore(log, base, i)
  {
  }

  lemma FilesOf64()
    ensures NextFile(128, 64, 64 * PLOT_SIZE, 64) == 64 && NextFile(64, 64, 64 * PLOT_SIZE, 64) == 64
    ensures NextFile(64, 64, 0, 64) == 0 && NextFile(0, 64, 0, 64) == 0
  {
  }

  lemma EndOfNone(d: Drive, start: nat)
    requires d.plots == []
    ensures LastEnd(d, start) == 0
  {
  }

  lemma EndOfOnly(d: Drive, plot: Range, start: nat)
    requires d.plots == [plot]
    ensures LastEnd(d, start) == if Matching(plot, start) then EndOf(plot) else 0
  {
    hide Matching;
    assert d.plots[..|d.plots| - 1] == [] && LastEndOf([], start) == 0;
  }

  lemma SameWindow(plot: Range)
    requires plot.sn < 0x1_0000_0000
    ensures Matching(plot, 0)
  {
  }

  lemma OtherWindow(plot: Range, start: nat)
    requires start < 0x1_0000_0000 <= plot.sn
    ensures !Matching(plot, start)
  {
  }

  /** A drive is filled before the plots of the drives behind it are looked at. */
  lemma MeetsPlotOfLaterDrive(q: Request, a: string, b: string)
    requires a != b
    requires q == Request(0, 64, 64, map[a := Drive(64 * PLOT_SIZE, 0, []), b := Drive(0, 0, [Range(0, 8)])])
    ensures Allocated(q, [a, b]).log == [Grant(a, Range(0, 64), 1)]
    ensures Matching(q.disk[b].plots[0], q.start) && Meets(Range(0, 64), q.disk[b].plots[0])
  {
    hide NextFile, Visited, KeyedByWriters, Meets, LastEnd, Passed, Matching, Truncated, Consistent;
    UnplannedIsConsistent(q);
    PassedTwo(q, Unplanned(q), a, b, 64);
    FilesOf64();
    EndOfNone(q.disk[a], 0);
    SameWindow(Range(0, 8));
    OneFile(q, Unplanned(q), a, 64);
    var first := Visited(q, Unplanned(q), a, 64);
    NoFile(q, first, b, 64);
    NothingLeft(q, Visited(q, first, b, 64), [a, b], 8);
    MeetsByBounds(Range(0, 64), Range(0, 8));
  }

  /** The first visit to a drive when all that was wanted is granted. */
  lemma NoFile(q: Request, p: Plan, driver: string, unit: nat)
    requires unit > 0 && KeyedByWriters(p) && driver in q.disk && driver !in p.writers && p.left == 0
    ensures var r := Visited(q, p, driver, unit);
            r.left == 0 && r.writers == p.writers + [driver] && r.log == p.log
  {
    hide Filled, KeyedByWriters, LastEnd, Found;
    FilledNext(q, Known(q, p, driver), driver, unit);
  }

  /** Plots that start in the next 2^32 nonces do not match, so that the run goes over them. */
  lemma MeetsPlotOfNextWindow(q: Request, a: string)
    requires q == Request(0xffff_fff8, 64, 64, map[a := Drive(64 * PLOT_SIZE, 0, [Range(0x1_0000_0000, 8)])])
    ensures Allocated(q, [a]).log == [Grant(a, Range(0xffff_fff8, 64), 1)]
    ensures !Matching(q.disk[a].plots[0], q.start) && Meets(Range(0xffff_fff8, 64), q.disk[a].plots[0])
  {
    hide NextFile, Visited, KeyedByWriters, Meets, LastEnd, Passed, Matching, Truncated, Consistent;
    UnplannedIsConsistent(q);
    PassedTwo(q, Unplanned(q), a, a, 64);
    FilesOf64();
    EndOfOnly(q.disk[a], Range(0x1_0000_0000, 8), q.start);
    OtherWindow(q.disk[a].plots[0], q.start);
    OneFile(q, Unplanned(q), a, 64);
    NothingLeft(q, Visited(q, Unplanned(q), a, 64), [a], 8);
    MeetsByBounds(Range(0xffff_fff8, 64), Range(0x1_0000_0000, 8));
  }

  /**
   * No drive is passed over although it has room for 8 plots that are still wanted, whatever is
   * wanted and whatever drives there are, if and only if the cap is positive and below INT32_MAX.
   */
  lemma AlwaysMaximalIff(cap: nat, drivers: seq<string>)
    requires cap % 64 == 0 && drivers != []
    ensures 0 < cap < INT32_MAX <==>
            forall q: Request | q.cap == cap :: Maximal(q, Allocated(q, drivers), drivers)
  {
    hide Allocated, Maximal, Consistent;
    if 0 < cap < INT32_MAX {
      forall q: Request | q.cap == cap ensures Maximal(q, Allocated(q, drivers), drivers) {
        AllocatedKeeps(q, drivers);
      }
    } else {
      var n := if cap == 0 then 8 else 0x8000_0000;
      var q := Request(0, n, cap, map[drivers[0] := Drive(n * PLOT_SIZE, 0, [])]);
      PassesOver(q, drivers, drivers[0]);
    }
  }

  /** Without a cap, or with one that leaves 2^31 nonces in one piece, nothing is granted at all. */
  lemma PassesOver(q: Request, drivers: seq<string>, drive: string)
    requires drive in drivers && q.disk == map[drive := Drive(q.total * PLOT_SIZE, 0, [])]
    requires (q.cap == 0 && q.total == 8) || (q.cap >= 0x8000_0000 && q.total == 0x8000_0000)
    ensures Allocated(q, drivers).log == [] && Allocated(q, drivers).left == q.total
    ensures !Maximal(q, Allocated(q, drivers), drivers)
  {
    hide Consistent, Passed, KeyedByWriters, NextFile;
    AllocatedKeeps(q, drivers);
    UnplannedIsConsistent(q);
    NoFileOf(q.cap, q.total);
    StaysUntouched(q, Unplanned(q), drivers, drive, 64);
    StaysUntouched(q, Passed(q, Unplanned(q), drivers, 64), drivers, drive, 8);
    KeysThere(Allocated(q, drivers), drive);
  }

  lemma NoFileOf(cap: nat, n: nat)
    requires (cap == 0 && n == 8) || (cap >= 0x8000_0000 && n == 0x8000_0000)
    ensures NextFile(n, cap, n * PLOT_SIZE, 64) == 0 && NextFile(n, cap, n * PLOT_SIZE, 8) == 0
  {
  }

  ghost predicate Untouched(q: Request, p: Plan, drive: string) {
    p.log == [] && p.left == q.total && (drive in p.spaces ==> p.spaces[drive] == q.total * PLOT_SIZE)
  }

  lemma {:induction false} StaysUntouched(q: Request, p: Plan, drivers: seq<string>, drive: string, unit: nat)
    requires KeyedByWriters(p) && Untouched(q, p, drive) && q.disk == map[drive := Drive(q.total * PLOT_SIZE, 0, [])]
    requires unit > 0 && NextFile(q.total, q.cap, q.total * PLOT_SIZE, unit) == 0
    ensures Untouched(q, Passed(q, p, drivers, unit), drive)
  {
    hide KeyedByWriters, NextFile, Filled;
    if drivers != [] {
      var last := drivers[|drivers| - 1];
      var mid := Passed(q, p, drivers[..|drivers| - 1], unit);
      StaysUntouched(q, p, drivers[..|drivers| - 1], drive, unit);
      if last in q.disk {
        var known := Known(q, mid, last);
        KeysThere(known, last);
        if last in mid.writers {
          KeysThere(mid, last);
        }
        FilledNext(q, known, last, unit);
      }
    }
  }

  /** A full drive with a temporary file of the right size: resuming takes up its space again. */
  lemma ResumesOnFullDrive(q: Request, a: string)
    requires q == Request(0, 64, 64, map[a := Drive(0, 64 * PLOT_SIZE, [])])
    ensures Allocated(q, [a]).log == [Grant(a, Range(0, 64), 1)]
  {
    hide NextFile, Visited, KeyedByWriters, LastEnd, Passed, Truncated, Consistent;
    UnplannedIsConsistent(q);
    PassedTwo(q, Unplanned(q), a, a, 64);
    FilesOf64();
    EndOfNone(q.disk[a], 0);
    OneFile(q, Unplanned(q), a, 64);
    NothingLeft(q, Visited(q, Unplanned(q), a, 64), [a], 8);
  }

  // ---- the two units ---------------------------------------------------------------------------

  /** Ranges are multiples of 64, or smaller than 64. */
  ghost predicate WholeOrSmall(log: seq<Grant>) {
    forall i | 0 <= i < |log| :: log[i].r.n % 64 == 0 || log[i].r.n < 64
  }

  /** The small files come last: only what does not fill a multiple of 64 is cut in units of 8. */
  lemma PassesUseUnits(q: Request, drivers: seq<string>)
    requires q.cap < INT32_MAX
    ensures WholeOrSmall(Allocated(q, drivers).log)
    ensures forall i | 0 <= i < |Passed(q, Unplanned(q), drivers, 64).log| ::
              Passed(q, Unplanned(q), drivers, 64).log[i].r.n % 64 == 0
  {
    hide Consistent, Passed, KeyedByWriters, AllSpent;
    UnplannedIsConsistent(q);
    PassedKeeps(q, Unplanned(q), drivers, 64);
    PassedWhole(q, Unplanned(q), drivers);
    PassedSmall(q, Passed(q, Unplanned(q), drivers, 64), drivers);
  }

  ghost predicate Whole(log: seq<Grant>) {
    forall i | 0 <= i < |log| :: log[i].r.n % 64 == 0
  }

  lemma {:induction false} FilledWhole(q: Request, p: Plan, driver: string)
    requires KeyedByWriters(p) && driver in p.writers && Whole(p.log)
    ensures Whole(Filled(q, p, driver, 64).log)
    decreases p.left
  {
    hide KeyedByWriters, NextFile, Filled;
    KeysThere(p, driver);
    FilledNext(q, p, driver, 64);
    var n := NextFile(p.left, q.cap, p.spaces[driver], 64);
    if n > 0 {
      NextFileAligned(p.left, q.cap, p.spaces[driver], 64);
      FilledWhole(q, WithFile(p, driver, n), driver);
    }
  }

  lemma {:induction false} PassedWhole(q: Request, p: Plan, drivers: seq<string>)
    requires KeyedByWriters(p) && Whole(p.log)
    ensures Whole(Passed(q, p, drivers, 64).log)
  {
    hide KeyedByWriters, Filled, Whole;
    if drivers != [] {
      var mid, last := Passed(q, p, drivers[..|drivers| - 1], 64), drivers[|drivers| - 1];
      PassedWhole(q, p, drivers[..|drivers| - 1]);
      if last in q.disk {
        FilledWhole(q, Known(q, mid, last), last);
      }
    }
  }

  lemma {:induction false} FilledSmall(q: Request, p: Plan, driver: string)
    requires KeyedByWriters(p) && driver in p.writers && Spent(q, p, driver, 64) && WholeOrSmall(p.log)
    ensures WholeOrSmall(Filled(q, p, driver, 8).log)
    decreases p.left
  {
    hide KeyedByWriters, NextFile, Filled;
    KeysThere(p, driver);
    FilledNext(q, p, driver, 8);
    var n := NextFile(p.left, q.cap, p.spaces[driver], 8);
    if n > 0 {
      NextFileBounds(p.left, q.cap, p.spaces[driver], 8);
      FilledSmall(q, WithFile(p, driver, n), driver);
    }
  }

  lemma FewerSpent(q: Request, p: Plan, drivers: seq<string>, unit: nat)
    requires AllSpent(q, p, drivers, unit) && drivers != []
    ensures AllSpent(q, p, drivers[..|drivers| - 1], unit)
    ensures forall d | d in drivers[..|drivers| - 1] :: d in drivers
  {
  }

  lemma {:induction false} PassedSmall(q: Request, p: Plan, drivers: seq<string>)
    requires Consistent(q, p) && KeyedByWriters(p) && AllSpent(q, p, drivers, 64)
    requires (forall d | d in drivers && d in q.disk :: d in p.writers) && WholeOrSmall(p.log)
    ensures WholeOrSmall(Passed(q, p, drivers, 8).log)
  {
    hide Consistent, KeyedByWriters, Filled, WholeOrSmall, Spent, Onward;
    if drivers != [] {
      var before, last := drivers[..|drivers| - 1], drivers[|drivers| - 1];
      var mid := Passed(q, p, before, 8);
      FewerSpent(q, p, drivers, 64);
      PassedSmall(q, p, before);
      PassedKeeps(q, p, before, 8);
      StaysSpent(q, p, mid, drivers, 64);
      if last in q.disk {
        OnwardWriters(p, mid);
        assert Spent(q, mid, last, 64);
        FilledSmall(q, mid, last);
      }
    }
  }
}
