/** Handing out nonce ranges to drives, in two passes. */
module RangeAllocator {
  import opened Words
  import opened CpuPlotter
  import opened Tasks

  const INT32_MAX := 0x7fff_ffff

  /** A drive: free bytes, the size of its first file with an extension, and its plots of this id. */
  datatype Drive = Drive(freeBytes: int, temp: nat, plots: seq<Range>)

  /** One file's range on a drive, and how many drives had been scanned when it was cut. */
  datatype Grant = Grant(drive: string, r: Range, scanned: nat)

  // ---- one decision --------------------------------------------------------------------

  /** Division of machine integers, which truncates toward zero. */
  function Truncated(x: int, y: nat): int
    requires y > 0
  {
    if x >= 0 then x / y else -((-x) / y)
  }

  lemma AtMost(x: nat, unit: nat)
    requires unit > 0
    ensures x / unit * unit <= x
    ensures x / unit * unit == 0 <==> x < unit
  {
  }

  /** How many plots of the wanted number go into the next file; 0 ends the work on this drive. */
  function NextFile(left: nat, cap: nat, space: int, unit: nat): (n: nat)
    requires unit > 0
    ensures n <= left
  {
    var room := Truncated(space, PLOT_SIZE);
    var plots: nat := if room < 0 then 0 else if cap < room then cap else room;
    AtMost(Smaller(left, plots), unit);
    var n := Smaller(left, plots) / unit * unit;
    if n >= INT32_MAX then 0 else n
  }

  lemma NextFileBounds(left: nat, cap: nat, space: int, unit: nat)
    requires unit > 0
    ensures var n := NextFile(left, cap, space, unit);
            && n <= left && n <= cap && n < INT32_MAX
            && (n > 0 ==> n * PLOT_SIZE <= space)
  {
  }

  /** A file takes the largest multiple of unit that is wanted, within the cap and within the space. */
  lemma NextFileIsLargest(left: nat, cap: nat, space: int, unit: nat, k: nat)
    requires unit > 0 && NextFile(left, cap, space, unit) > 0
    requires k * unit <= left && k * unit <= cap && k * unit * PLOT_SIZE <= space
    ensures k * unit <= NextFile(left, cap, space, unit)
    ensures exists q: nat :: NextFile(left, cap, space, unit) == q * unit
  {
    NextFileByQuotient(left, cap, space, unit);
    var least := Smaller(left, Smaller(cap, space / PLOT_SIZE));
    hide NextFile;
    AtMostMultiple(least, unit, k);
  }

  lemma NextFileByQuotient(left: nat, cap: nat, space: int, unit: nat)
    requires unit > 0 && NextFile(left, cap, space, unit) > 0 && space >= 0
    ensures NextFile(left, cap, space, unit) == Smaller(left, Smaller(cap, space / PLOT_SIZE)) / unit * unit
  {
  }

  lemma AtMostMultiple(x: nat, unit: nat, k: nat)
    requires unit > 0 && k * unit <= x
    ensures k * unit <= x / unit * unit
  {
    var q := x / unit;
    assert x < (q + 1) * unit;
    if k > q {
      AtLeast(k, q + 1, unit);
    } else {
      AtLeast(q, k, unit);
    }
  }

  /** Exactly when a drive gets no further file: three kinds of shortage, or the size limit. */
  lemma NextFileStops(left: nat, cap: nat, space: int, unit: nat)
    requires 0 < unit < INT32_MAX
    ensures NextFile(left, cap, space, unit) == 0 <==>
      || left < unit
      || cap < unit
      || space < unit * PLOT_SIZE
      || Smaller(Smaller(left, cap), Truncated(space, PLOT_SIZE)) / unit * unit >= INT32_MAX
  {
    var room := Truncated(space, PLOT_SIZE);
    var plots: nat := if room < 0 then 0 else if cap < room then cap else room;
    AtMost(Smaller(left, plots), unit);
    RoomFor(space, unit);
    if room >= 0 {
      assert Smaller(left, plots) == Smaller(Smaller(left, cap), room);
    }
  }

  lemma RoomFor(space: int, unit: nat)
    requires 0 < unit
    ensures Truncated(space, PLOT_SIZE) < unit <==> space < unit * PLOT_SIZE
  {
  }

  // ---- what the log of grants promises --------------------------------------------------

  function EndOf(r: Range): nat {
    r.sn + r.n
  }

  /** Ranges ascend without overlap, from the first nonce on. */
  ghost predicate Ascending(log: seq<Grant>, start: nat, sn: nat) {
    && start <= sn
    && (forall i | 0 <= i < |log| :: start <= log[i].r.sn && EndOf(log[i].r) <= sn)
    && (forall i, j | 0 <= i < j < |log| :: EndOf(log[i].r) <= log[j].r.sn)
  }

  ghost predicate Sized(log: seq<Grant>, cap: nat) {
    forall i | 0 <= i < |log| :: 0 < log[i].r.n <= cap && log[i].r.n < INT32_MAX && log[i].r.n % 8 == 0
  }

  function Granted(log: seq<Grant>): nat {
    if log == [] then 0 else Granted(log[..|log| - 1]) + log[|log| - 1].r.n
  }

  function RangesOn(log: seq<Grant>, drive: string): seq<Range> {
    if log == [] then []
    else
      var last := log[|log| - 1];
      RangesOn(log[..|log| - 1], drive) + if last.drive == drive then [last.r] else []
  }

  function BytesOn(log: seq<Grant>, drive: string): nat {
    if log == [] then 0
    else
      var last := log[|log| - 1];
      BytesOn(log[..|log| - 1], drive) + if last.drive == drive then last.r.n * PLOT_SIZE else 0
  }

  /** A plot that starts in the same 2^32 nonces as the run counts. */
  predicate Matching(p: Range, start: nat) {
    p.sn / 0x1_0000_0000 == start / 0x1_0000_0000
  }

  /** The windows of 2^32 nonces that the test of the upper 32 bits tells apart. */
  lemma MatchesWindow(p: Range, start: nat, w: nat)
    requires w * 0x1_0000_0000 <= start < (w + 1) * 0x1_0000_0000
    ensures Matching(p, start) <==> w * 0x1_0000_0000 <= p.sn < (w + 1) * 0x1_0000_0000
  {
  }

  ghost predicate Past(d: Drive, start: nat, sn: nat) {
    forall i | 0 <= i < |d.plots| && Matching(d.plots[i], start) :: EndOf(d.plots[i]) <= sn
  }

  /** The largest end of a drive's matching plots, or 0 when it has none. */
  function LastEnd(d: Drive, start: nat): nat {
    LastEndOf(d.plots, start)
  }

  function LastEndOf(plots: seq<Range>, start: nat): nat {
    if plots == [] then 0
    else
      var before, p := LastEndOf(plots[..|plots| - 1], start), plots[|plots| - 1];
      if Matching(p, start) && before < EndOf(p) then EndOf(p) else before
  }

  /** The last end is the first nonce that is past all matching plots. */
  lemma LastEndIs(d: Drive, start: nat, sn: nat)
    ensures LastEnd(d, start) <= sn <==> Past(d, start, sn)
  {
    hide Matching;
    LastEndOfIs(d.plots, start, sn);
  }

  lemma {:induction false} LastEndOfIs(plots: seq<Range>, start: nat, sn: nat)
    ensures LastEndOf(plots, start) <= sn <==>
            forall i | 0 <= i < |plots| && Matching(plots[i], start) :: EndOf(plots[i]) <= sn
  {
    hide Matching;
    if plots != [] {
      var before := plots[..|plots| - 1];
      LastEndOfIs(before, start, sn);
      assert forall i | 0 <= i < |before| :: before[i] == plots[i];
    }
  }

  /** Every range starts at or after the ends of matching plots on the drives scanned by then. */
  ghost predicate Clear(log: seq<Grant>, disk: map<string, Drive>, scanned: seq<string>, start: nat) {
    && (forall w | 0 <= w < |scanned| :: scanned[w] in disk)
    && (forall i | 0 <= i < |log| :: log[i].scanned <= |scanned| && log[i].drive in scanned[..log[i].scanned])
    && (forall i, w | 0 <= i < |log| && 0 <= w < log[i].scanned :: Past(disk[scanned[w]], start, log[i].r.sn))
  }

  /** The space that scanning a drive finds. */
  function Found(d: Drive): int {
    d.freeBytes + d.temp
  }

  /** What the allocator is given: first nonce, nonces wanted, cap per file, and the drives there are. */
  datatype Request = Request(start: nat, total: nat, cap: nat, disk: map<string, Drive>)

  /**
   * The allocator's variables. writers lists the drives in the order in which they were first seen,
   * which is the order of the workers; log lists all grants in the order in which they were made.
   */
  datatype Plan = Plan(sn: nat, left: nat, spaces: map<string, int>, tasks: map<string, seq<Range>>,
                       writers: seq<string>, log: seq<Grant>)

  ghost predicate Distinct(names: seq<string>) {
    forall i, j | 0 <= i < j < |names| :: names[i] != names[j]
  }

  ghost predicate SeenPast(q: Request, p: Plan) {
    forall d | d in p.writers :: d in q.disk && Past(q.disk[d], q.start, p.sn)
  }

  ghost predicate KeyedByWriters(p: Plan) {
    && (forall d :: d in p.spaces <==> d in p.writers)
    && (forall d :: d in p.tasks <==> d in p.writers)
  }

  /** A drive's files are the ranges granted on it, and its space is what they leave. */
  ghost predicate Booked(q: Request, p: Plan, d: string) {
    && d in q.disk && d in p.spaces && d in p.tasks
    && p.tasks[d] == RangesOn(p.log, d)
    && p.spaces[d] + BytesOn(p.log, d) == Found(q.disk[d])
    && (Found(q.disk[d]) >= 0 ==> p.spaces[d] >= 0)
  }

  ghost predicate AllBooked(q: Request, p: Plan) {
    forall d | d in p.writers :: Booked(q, p, d)
  }

  /** Where the ranges granted so far end. */
  function Reached(q: Request, log: seq<Grant>): nat {
    if log == [] then q.start else EndOf(log[|log| - 1].r)
  }

  /** How many drives were known when the last range was granted. */
  function SeenBy(log: seq<Grant>): nat {
    if log == [] then 0 else log[|log| - 1].scanned
  }

  /** The first nonce from sn on that is past the matching plots of some drives. */
  function Skipped(q: Request, sn: nat, drives: seq<string>): nat {
    if drives == [] then sn
    else
      var before, last := Skipped(q, sn, drives[..|drives| - 1]), drives[|drives| - 1];
      if last in q.disk && before < LastEnd(q.disk[last], q.start) then LastEnd(q.disk[last], q.start) else before
  }

  /** The next range starts at sn: where the last one ended, or past the plots of drives seen since then. */
  ghost predicate Placed(q: Request, log: seq<Grant>, writers: seq<string>, sn: nat) {
    SeenBy(log) <= |writers| && sn == Skipped(q, Reached(q, log), writers[SeenBy(log)..])
  }

  /** Every range was placed so, and the next one will be. */
  ghost predicate Chained(q: Request, p: Plan) {
    && Placed(q, p.log, p.writers, p.sn)
    && forall i | 0 <= i < |p.log| ::
         && p.log[i].scanned <= |p.writers|
         && Placed(q, p.log[..i], p.writers[..p.log[i].scanned], p.log[i].r.sn)
  }

  /** A range has as many nonces as the wanted number, the cap and the drive's space allowed for then. */
  ghost predicate FullSized(q: Request, log: seq<Grant>, g: Grant) {
    && Granted(log) <= q.total && g.drive in q.disk
    && var left, space := q.total - Granted(log), Found(q.disk[g.drive]) - BytesOn(log, g.drive);
       g.r.n == NextFile(left, q.cap, space, 64) || g.r.n == NextFile(left, q.cap, space, 8)
  }

  ghost predicate AllFullSized(q: Request, log: seq<Grant>) {
    forall i | 0 <= i < |log| :: FullSized(q, log[..i], log[i])
  }

  /** Everything that holds of the allocator's variables at all times. */
  ghost predicate Consistent(q: Request, p: Plan) {
    && Ascending(p.log, q.start, p.sn)
    && Sized(p.log, q.cap)
    && Granted(p.log) + p.left == q.total
    && Clear(p.log, q.disk, p.writers, q.start)
    && Distinct(p.writers)
    && SeenPast(q, p)
    && KeyedByWriters(p)
    && AllBooked(q, p)
    && Chained(q, p)
    && AllFullSized(q, p.log)
  }

  /** The plan after one more file of n nonces on a drive. */
  function WithFile(p: Plan, driver: string, n: nat): Plan
    requires driver in p.spaces && driver in p.tasks && n <= p.left
  {
    Plan(p.sn + n, p.left - n,
         p.spaces[driver := p.spaces[driver] - n * PLOT_SIZE],
         p.tasks[driver := p.tasks[driver] + [Range(p.sn, n)]],
         p.writers,
         p.log + [Grant(driver, Range(p.sn, n), |p.writers|)])
  }

  /** The plan after the first visit to a drive whose matching plots end at lastSn at the latest. */
  function WithDrive(p: Plan, driver: string, space: int, lastSn: nat): Plan {
    Plan(if p.sn < lastSn then lastSn else p.sn, p.left,
         p.spaces[driver := space], p.tasks[driver := []], p.writers + [driver], p.log)
  }

  // ---- both kinds of change keep all of it ---------------------------------------------

  lemma FileKeepsConsistent(q: Request, p: Plan, driver: string, n: nat, unit: nat)
    requires Consistent(q, p) && driver in p.writers && driver in p.spaces && driver in p.tasks
    requires (unit == 64 || unit == 8) && n == NextFile(p.left, q.cap, p.spaces[driver], unit) > 0
    ensures Consistent(q, WithFile(p, driver, n))
  {
    hide Ascending, Sized, Clear, Distinct, SeenPast, KeyedByWriters, AllBooked, Granted, NextFile, Chained,
         AllFullSized;
    NextFileBounds(p.left, q.cap, p.spaces[driver], unit);
    NextFileAligned(p.left, q.cap, p.spaces[driver], unit);
    var g := Grant(driver, Range(p.sn, n), |p.writers|);
    LogGrows(p.log, q, p.sn, g);
    ClearGrows(q, p, g);
    SeenPastGrows(q, p, p.sn + n, p.writers, WithFile(p, driver, n));
    KeyedGrows(p, driver, n);
    BookedGrows(q, p, driver, n);
    FileKeepsChained(q, p, driver, n);
    FullSizedGrows(q, p, driver, n, unit);
  }

  lemma FileKeepsChained(q: Request, p: Plan, driver: string, n: nat)
    requires Chained(q, p) && driver in p.spaces && driver in p.tasks && n <= p.left
    ensures Chained(q, WithFile(p, driver, n))
  {
    hide Skipped;
    var after := WithFile(p, driver, n);
    assert p.writers[|p.writers|..] == [];
    NothingSkipped(q, after.sn);
    forall i | 0 <= i < |after.log|
      ensures Placed(q, after.log[..i], p.writers[..after.log[i].scanned], after.log[i].r.sn)
    {
      if i < |p.log| {
        assert after.log[..i] == p.log[..i];
      } else {
        assert after.log[..i] == p.log && p.writers[..|p.writers|] == p.writers;
      }
    }
  }

  lemma NothingSkipped(q: Request, sn: nat)
    ensures Skipped(q, sn, []) == sn
  {
  }

  lemma FullSizedGrows(q: Request, p: Plan, driver: string, n: nat, unit: nat)
    requires AllFullSized(q, p.log) && AllBooked(q, p) && Granted(p.log) + p.left == q.total
    requires driver in p.writers && driver in p.spaces && driver in p.tasks && n <= p.left
    requires (unit == 64 || unit == 8) && n == NextFile(p.left, q.cap, p.spaces[driver], unit)
    ensures AllFullSized(q, WithFile(p, driver, n).log)
  {
    hide NextFile, Granted, BytesOn, RangesOn, Found;
    var log := WithFile(p, driver, n).log;
    assert Booked(q, p, driver);
    forall i | 0 <= i < |log| ensures FullSized(q, log[..i], log[i]) {
      if i < |p.log| {
        assert log[..i] == p.log[..i];
      } else {
        assert log[..i] == p.log;
      }
    }
  }

  lemma LogGrows(log: seq<Grant>, q: Request, sn: nat, g: Grant)
    requires Ascending(log, q.start, sn) && Sized(log, q.cap)
    requires g.r.sn == sn && 0 < g.r.n <= q.cap && g.r.n < INT32_MAX && g.r.n % 8 == 0
    ensures Ascending(log + [g], q.start, sn + g.r.n) && Sized(log + [g], q.cap)
    ensures Granted(log + [g]) == Granted(log) + g.r.n
  {
  }

  lemma SeenPastGrows(q: Request, p: Plan, sn: nat, writers: seq<string>, after: Plan)
    requires SeenPast(q, p) && p.sn <= sn && after.sn == sn && after.writers == writers
    requires forall d | d in writers && d !in p.writers :: d in q.disk && Past(q.disk[d], q.start, sn)
    ensures SeenPast(q, after)
  {
  }

  lemma KeyedGrows(p: Plan, driver: string, n: nat)
    requires KeyedByWriters(p) && driver in p.writers && n <= p.left
    ensures KeyedByWriters(WithFile(p, driver, n))
  {
  }

  lemma ClearGrows(q: Request, p: Plan, g: Grant)
    requires Clear(p.log, q.disk, p.writers, q.start) && SeenPast(q, p)
    requires g.drive in p.writers && g.r.sn == p.sn && g.scanned == |p.writers|
    ensures Clear(p.log + [g], q.disk, p.writers, q.start)
  {
  }

  lemma BookedGrows(q: Request, p: Plan, driver: string, n: nat)
    requires AllBooked(q, p) && KeyedByWriters(p) && driver in p.writers
    requires n <= p.left && n * PLOT_SIZE <= p.spaces[driver]
    ensures AllBooked(q, WithFile(p, driver, n))
  {
  }

  lemma DriveKeepsConsistent(q: Request, p: Plan, driver: string, lastSn: nat)
    requires Consistent(q, p) && driver in q.disk && driver !in p.writers
    requires lastSn == LastEnd(q.disk[driver], q.start)
    ensures Consistent(q, WithDrive(p, driver, Found(q.disk[driver]), lastSn))
  {
    hide Ascending, Sized, Clear, Distinct, SeenPast, KeyedByWriters, AllBooked, Granted, Found, Past, LastEnd,
         Chained, AllFullSized;
    LastEndIs(q.disk[driver], q.start, lastSn);
    var after := WithDrive(p, driver, Found(q.disk[driver]), lastSn);
    LogStays(p.log, q.start, p.sn, after.sn);
    ClearKept(p.log, q.disk, p.writers, driver, q.start);
    PastLater(q.disk[driver], q.start, lastSn, after.sn);
    SeenPastGrows(q, p, after.sn, after.writers, after);
    NewDriveKeyed(p, driver, Found(q.disk[driver]), lastSn);
    NewDriveBooked(q, p, driver, lastSn);
    DriveKeepsChained(q, p, driver);
  }

  lemma DriveKeepsChained(q: Request, p: Plan, driver: string)
    requires Chained(q, p) && driver in q.disk
    ensures Chained(q, WithDrive(p, driver, Found(q.disk[driver]), LastEnd(q.disk[driver], q.start)))
  {
    hide LastEnd, Found;
    var more, seen := p.writers + [driver], SeenBy(p.log);
    assert more[seen..][..|more| - seen - 1] == p.writers[seen..];
    forall i | 0 <= i < |p.log| ensures more[..p.log[i].scanned] == p.writers[..p.log[i].scanned] {
    }
  }

  lemma PastLater(d: Drive, start: nat, sn: nat, later: nat)
    requires Past(d, start, sn) && sn <= later
    ensures Past(d, start, later)
  {
  }

  lemma LogStays(log: seq<Grant>, start: nat, sn: nat, later: nat)
    requires Ascending(log, start, sn) && sn <= later
    ensures Ascending(log, start, later)
  {
  }

  lemma NewDriveKeyed(p: Plan, driver: string, space: int, lastSn: nat)
    requires KeyedByWriters(p) && Distinct(p.writers) && driver !in p.writers
    ensures KeyedByWriters(WithDrive(p, driver, space, lastSn)) && Distinct(p.writers + [driver])
  {
  }

  lemma NewDriveBooked(q: Request, p: Plan, driver: string, lastSn: nat)
    requires AllBooked(q, p) && Clear(p.log, q.disk, p.writers, q.start) && driver in q.disk && driver !in p.writers
    ensures AllBooked(q, WithDrive(p, driver, Found(q.disk[driver]), lastSn))
  {
    hide Past;
    var after := WithDrive(p, driver, Found(q.disk[driver]), lastSn);
    NothingOn(p.log, p.writers, driver);
    forall d | d in after.writers ensures Booked(q, after, d) {
      assert d != driver ==> Booked(q, p, d);
    }
  }

  lemma {:induction false} NothingOn(log: seq<Grant>, scanned: seq<string>, drive: string)
    requires forall i | 0 <= i < |log| :: log[i].scanned <= |scanned| && log[i].drive in scanned[..log[i].scanned]
    requires drive !in scanned
    ensures RangesOn(log, drive) == [] && BytesOn(log, drive) == 0
  {
    if log != [] {
      NothingOn(log[..|log| - 1], scanned, drive);
      var last := log[|log| - 1];
      assert last.drive in scanned[..last.scanned];
    }
  }

  lemma ClearKept(log: seq<Grant>, disk: map<string, Drive>, scanned: seq<string>, drive: string, start: nat)
    requires Clear(log, disk, scanned, start) && drive in disk
    ensures Clear(log, disk, scanned + [drive], start)
  {
    hide Past;
    var more := scanned + [drive];
    forall i | 0 <= i < |log| ensures log[i].drive in more[..log[i].scanned] {
      assert more[..log[i].scanned] == scanned[..log[i].scanned];
    }
  }

  lemma NextFileAligned(left: nat, cap: nat, space: int, unit: nat)
    requires unit == 64 || unit == 8
    ensures NextFile(left, cap, space, unit) % 8 == 0
    ensures unit == 64 ==> NextFile(left, cap, space, unit) % 64 == 0
  {
    var room := Truncated(space, PLOT_SIZE);
    var plots: nat := if room < 0 then 0 else if cap < room then cap else room;
    var q := Smaller(left, plots) / unit;
    assert unit == 64 ==> q * 64 == (q * 8) * 8;
    Eights(if unit == 64 then q * 8 else q);
  }

  lemma Eights(k: nat)
    ensures k * 8 % 8 == 0
  {
  }

  // ---- what the two passes leave ----------------------------------------------------------

  /** No file of unit plots or more fits this drive, or that much is no longer wanted. */
  ghost predicate Spent(q: Request, p: Plan, d: string, unit: nat) {
    d in p.spaces && (p.left < unit || q.cap < unit || p.spaces[d] < unit * PLOT_SIZE)
  }

  /** No drive among those listed can take a file any more. */
  ghost predicate AllSpent(q: Request, p: Plan, drivers: seq<string>, unit: nat) {
    forall d | d in drivers && d in q.disk :: Spent(q, p, d, unit)
  }

  /** What later work may change: less is wanted, and known drives have at most as much space. */
  ghost predicate Onward(p: Plan, after: Plan) {
    && after.left <= p.left
    && p.writers <= after.writers
    && p.log <= after.log
    && forall d | d in p.spaces :: d in after.spaces && after.spaces[d] <= p.spaces[d]
  }

  lemma StaysSpent(q: Request, p: Plan, after: Plan, drivers: seq<string>, unit: nat)
    requires Onward(p, after) && AllSpent(q, p, drivers, unit)
    ensures AllSpent(q, after, drivers, unit)
  {
  }

  lemma OnwardTrans(p: Plan, mid: Plan, after: Plan)
    requires Onward(p, mid) && Onward(mid, after)
    ensures Onward(p, after)
  {
  }

  lemma OnwardRefl(p: Plan)
    ensures Onward(p, p)
  {
  }

  lemma FileIsOnward(p: Plan, driver: string, n: nat)
    requires driver in p.spaces && driver in p.tasks && n <= p.left
    ensures Onward(p, WithFile(p, driver, n))
  {
  }

  lemma NewDriveIsOnward(q: Request, p: Plan, driver: string, lastSn: nat)
    requires KeyedByWriters(p) && driver in q.disk && driver !in p.writers
    ensures Onward(p, WithDrive(p, driver, Found(q.disk[driver]), lastSn))
  {
  }

  lemma NothingFits(left: nat, cap: nat, space: int, unit: nat)
    requires 0 < unit < INT32_MAX && cap < INT32_MAX && NextFile(left, cap, space, unit) == 0
    ensures left < unit || cap < unit || space < unit * PLOT_SIZE
  {
    hide NextFile, Truncated;
    NextFileStops(left, cap, space, unit);
    RoomFor(space, unit);
    if space >= unit * PLOT_SIZE {
      AtMost(Smaller(Smaller(left, cap), Truncated(space, PLOT_SIZE)), unit);
    }
  }

  lemma OneMoreSpent(q: Request, p: Plan, drivers: seq<string>, driver: string, unit: nat)
    requires AllSpent(q, p, drivers, unit) && (driver in q.disk ==> Spent(q, p, driver, unit))
    ensures AllSpent(q, p, drivers + [driver], unit)
  {
  }

  // ---- the two passes --------------------------------------------------------------------

  /** The plan before the first pass. */
  function Unplanned(q: Request): Plan {
    Plan(q.start, q.total, map[], map[], [], [])
  }

  /** The plan after one drive was filled: files are cut until none fits or nothing is left. */
  ghost function Filled(q: Request, p: Plan, driver: string, unit: nat): (r: Plan)
    requires unit > 0 && KeyedByWriters(p) && driver in p.writers
    ensures KeyedByWriters(r) && r.writers == p.writers
    decreases p.left
  {
    var n := NextFile(p.left, q.cap, p.spaces[driver], unit);
    if n == 0 then p else Filled(q, WithFile(p, driver, n), driver, unit)
  }

  /** The plan once a drive is known: a new one counts its space and moves past its matching plots. */
  ghost function Known(q: Request, p: Plan, driver: string): (r: Plan)
    requires KeyedByWriters(p) && driver in q.disk
    ensures KeyedByWriters(r) && driver in r.writers
  {
    if driver in p.writers then p
    else WithDrive(p, driver, Found(q.disk[driver]), LastEnd(q.disk[driver], q.start))
  }

  /** The plan after one drive of the command line; one that does not exist is left out. */
  ghost function Visited(q: Request, p: Plan, driver: string, unit: nat): (r: Plan)
    requires unit > 0 && KeyedByWriters(p)
    ensures KeyedByWriters(r)
  {
    if driver in q.disk then Filled(q, Known(q, p, driver), driver, unit) else p
  }

  ghost function Passed(q: Request, p: Plan, drivers: seq<string>, unit: nat): (r: Plan)
    requires unit > 0 && KeyedByWriters(p)
    ensures KeyedByWriters(r)
  {
    if drivers == [] then p
    else Visited(q, Passed(q, p, drivers[..|drivers| - 1], unit), drivers[|drivers| - 1], unit)
  }

  /** The plan after both passes. */
  ghost function Allocated(q: Request, drivers: seq<string>): Plan {
    Passed(q, Passed(q, Unplanned(q), drivers, 64), drivers, 8)
  }

  lemma ConsistentKeys(q: Request, p: Plan)
    requires Consistent(q, p)
    ensures KeyedByWriters(p)
  {
  }

  lemma {:induction false} FilledKeeps(q: Request, p: Plan, driver: string, unit: nat)
    requires Consistent(q, p) && KeyedByWriters(p) && driver in p.writers && (unit == 64 || unit == 8)
    ensures Consistent(q, Filled(q, p, driver, unit)) && Onward(p, Filled(q, p, driver, unit))
    ensures q.cap < INT32_MAX ==> Spent(q, Filled(q, p, driver, unit), driver, unit)
    decreases p.left
  {
    hide Consistent, Onward, NextFile, WithFile;
    var space := p.spaces[driver];
    var n := NextFile(p.left, q.cap, space, unit);
    if n == 0 {
      OnwardRefl(p);
      if q.cap < INT32_MAX {
        NothingFits(p.left, q.cap, space, unit);
      }
    } else {
      FileKeepsConsistent(q, p, driver, n, unit);
      FileIsOnward(p, driver, n);
      var next := WithFile(p, driver, n);
      FileLeaves(p, driver, n);
      ConsistentKeys(q, next);
      FilledKeeps(q, next, driver, unit);
      OnwardTrans(p, next, Filled(q, next, driver, unit));
    }
  }

  lemma KeysThere(p: Plan, driver: string)
    requires KeyedByWriters(p) && driver in p.writers
    ensures driver in p.spaces && driver in p.tasks
  {
  }

  lemma FilledNext(q: Request, p: Plan, driver: string, unit: nat)
    requires unit > 0 && KeyedByWriters(p) && driver in p.writers && driver in p.spaces && driver in p.tasks
    ensures var n := NextFile(p.left, q.cap, p.spaces[driver], unit);
            if n == 0 then Filled(q, p, driver, unit) == p
            else KeyedByWriters(WithFile(p, driver, n))
                 && Filled(q, p, driver, unit) == Filled(q, WithFile(p, driver, n), driver, unit)
    ensures p.left == 0 ==> Filled(q, p, driver, unit) == p
  {
    hide NextFile;
  }

  lemma FileLeaves(p: Plan, driver: string, n: nat)
    requires driver in p.spaces && driver in p.tasks && n <= p.left
    ensures WithFile(p, driver, n).left == p.left - n && WithFile(p, driver, n).writers == p.writers
  {
  }

  lemma KnownKeeps(q: Request, p: Plan, driver: string)
    requires Consistent(q, p) && KeyedByWriters(p) && driver in q.disk
    ensures Consistent(q, Known(q, p, driver)) && Onward(p, Known(q, p, driver))
    ensures forall d | d in Known(q, p, driver).writers :: d in p.writers || d == driver
  {
    hide Consistent, Onward, LastEnd;
    if driver in p.writers {
      OnwardRefl(p);
    } else {
      var last := LastEnd(q.disk[driver], q.start);
      DriveKeepsConsistent(q, p, driver, last);
      NewDriveIsOnward(q, p, driver, last);
    }
  }

  lemma VisitedKeeps(q: Request, p: Plan, driver: string, unit: nat)
    requires Consistent(q, p) && KeyedByWriters(p) && (unit == 64 || unit == 8)
    ensures Consistent(q, Visited(q, p, driver, unit)) && Onward(p, Visited(q, p, driver, unit))
    ensures driver in q.disk ==> driver in Visited(q, p, driver, unit).writers
    ensures forall d | d in Visited(q, p, driver, unit).writers :: d in p.writers || d == driver
    ensures driver in q.disk && q.cap < INT32_MAX ==> Spent(q, Visited(q, p, driver, unit), driver, unit)
  {
    hide Consistent, Onward, Known, Filled, Spent, KeyedByWriters;
    if driver in q.disk {
      var known := Known(q, p, driver);
      KnownKeeps(q, p, driver);
      FilledKeeps(q, known, driver, unit);
      OnwardTrans(p, known, Filled(q, known, driver, unit));
    } else {
      OnwardRefl(p);
    }
  }

  lemma {:induction false} PassedKeeps(q: Request, p: Plan, drivers: seq<string>, unit: nat)
    requires Consistent(q, p) && KeyedByWriters(p) && (unit == 64 || unit == 8)
    ensures Consistent(q, Passed(q, p, drivers, unit)) && Onward(p, Passed(q, p, drivers, unit))
    ensures forall d | d in drivers && d in q.disk :: d in Passed(q, p, drivers, unit).writers
    ensures forall d | d in Passed(q, p, drivers, unit).writers :: d in p.writers || d in drivers
    ensures q.cap < INT32_MAX ==> AllSpent(q, Passed(q, p, drivers, unit), drivers, unit)
  {
    hide Consistent, Onward, Visited, Spent, KeyedByWriters, AllSpent;
    if drivers == [] {
      OnwardRefl(p);
      NoneSpent(q, p, unit);
    } else {
      var before, driver := drivers[..|drivers| - 1], drivers[|drivers| - 1];
      var mid := Passed(q, p, before, unit);
      var after := Visited(q, mid, driver, unit);
      PassedKeeps(q, p, before, unit);
      VisitedKeeps(q, mid, driver, unit);
      OnwardTrans(p, mid, after);
      OnwardWriters(mid, after);
      assert drivers == before + [driver];
      if q.cap < INT32_MAX {
        StaysSpent(q, mid, after, before, unit);
        OneMoreSpent(q, after, before, driver, unit);
      }
    }
  }

  lemma NoneSpent(q: Request, p: Plan, unit: nat)
    ensures AllSpent(q, p, [], unit)
  {
  }

  lemma OnwardWriters(p: Plan, after: Plan)
    requires Onward(p, after)
    ensures forall d | d in p.writers :: d in after.writers
  {
    forall d | d in p.writers ensures d in after.writers {
      var w :| 0 <= w < |p.writers| && p.writers[w] == d;
      assert after.writers[w] == d;
    }
  }

  lemma UnplannedIsConsistent(q: Request)
    ensures Consistent(q, Unplanned(q)) && KeyedByWriters(Unplanned(q))
  {
  }

  /** Fewer than 8 nonces remain, or no drive that is there has room for 8 plots. */
  ghost predicate Maximal(q: Request, p: Plan, drivers: seq<string>) {
    p.left < 8 || forall d | d in drivers && d in q.disk :: d in p.spaces && p.spaces[d] < 8 * PLOT_SIZE
  }

  /**
   * What both passes leave. The program rounds the cap per file to a multiple of 64, so that a
   * positive one is at least 64.
   */
  lemma AllocatedKeeps(q: Request, drivers: seq<string>)
    ensures Consistent(q, Allocated(q, drivers))
    ensures forall d :: d in Allocated(q, drivers).writers <==> d in drivers && d in q.disk
    ensures var p := Allocated(q, drivers);
            forall d | d in p.writers ::
              d in q.disk && d in p.spaces && p.spaces[d] + BytesOn(p.log, d) == q.disk[d].freeBytes + q.disk[d].temp
    ensures 0 < q.cap < INT32_MAX && q.cap % 64 == 0 ==> Maximal(q, Allocated(q, drivers), drivers)
  {
    hide Consistent, Onward, Visited, Spent, KeyedByWriters, AllSpent, Maximal, Passed;
    UnplannedIsConsistent(q);
    var first := Passed(q, Unplanned(q), drivers, 64);
    PassedKeeps(q, Unplanned(q), drivers, 64);
    PassedKeeps(q, first, drivers, 8);
    WritersExist(q, Allocated(q, drivers));
    SpaceAddsUp(q, Allocated(q, drivers));
    if 0 < q.cap < INT32_MAX && q.cap % 64 == 0 {
      SpentIsMaximal(q, Allocated(q, drivers), drivers);
    }
  }

  lemma WritersExist(q: Request, p: Plan)
    requires Consistent(q, p)
    ensures forall d | d in p.writers :: d in q.disk
  {
  }

  /** What is left on a drive and its files make up its free space and its temporary file. */
  lemma SpaceAddsUp(q: Request, p: Plan)
    requires Consistent(q, p)
    ensures forall d | d in p.writers ::
              d in q.disk && d in p.spaces && p.spaces[d] + BytesOn(p.log, d) == q.disk[d].freeBytes + q.disk[d].temp
  {
    hide Ascending, Sized, Clear, Distinct, SeenPast, KeyedByWriters, Granted, Chained, AllFullSized, BytesOn, RangesOn;
    forall d | d in p.writers
      ensures d in q.disk && d in p.spaces && p.spaces[d] + BytesOn(p.log, d) == q.disk[d].freeBytes + q.disk[d].temp
    {
      assert Booked(q, p, d);
    }
  }

  lemma SpentIsMaximal(q: Request, p: Plan, drivers: seq<string>)
    requires AllSpent(q, p, drivers, 8) && 0 < q.cap && q.cap % 64 == 0
    ensures Maximal(q, p, drivers)
  {
  }

  class RangeAllocator {
    const start: nat
    const total: nat
    const cap: nat
    const disk: map<string, Drive>
    var sn: nat
    var left: nat
    var spaces: map<string, int>
    var tasks: map<string, seq<Range>>
    var writers: seq<string>
    ghost var log: seq<Grant>

    function Asked(): Request {
      Request(start, total, cap, disk)
    }

    ghost function Abs(): Plan
      reads this
    {
      Plan(sn, left, spaces, tasks, writers, log)
    }

    constructor (firstNonce: nat, wanted: nat, perFile: nat, drives: map<string, Drive>)
      ensures Asked() == Request(firstNonce, wanted, perFile, drives) && Abs() == Unplanned(Asked())
    {
      start, total, cap, disk := firstNonce, wanted, perFile, drives;
      sn, left, spaces, tasks, writers, log := firstNonce, wanted, map[], map[], [], [];
    }

    /** The first visit to a drive: its space, and moving past its matching plots. */
    method Scan(driver: string)
      requires driver in disk
      modifies this
      ensures Abs() == WithDrive(old(Abs()), driver, Found(disk[driver]), LastEnd(disk[driver], start))
    {
      hide Matching;
      var d := disk[driver];
      var lastSn: nat := 0;
      for i := 0 to |d.plots|
        invariant lastSn == LastEndOf(d.plots[..i], start)
      {
        assert d.plots[..i + 1][..i] == d.plots[..i];
        if Matching(d.plots[i], start) && lastSn < EndOf(d.plots[i]) {
          lastSn := EndOf(d.plots[i]);
        }
      }
      assert d.plots[..|d.plots|] == d.plots;
      spaces := spaces[driver := d.freeBytes];
      spaces := spaces[driver := spaces[driver] + d.temp];
      tasks := tasks[driver := []];
      writers := writers + [driver];
      sn := if sn < lastSn then lastSn else sn;
    }

    /** One more file: its range, what is left, the space that remains, and the task of the writer. */
    method AddFile(driver: string, n: nat)
      requires driver in spaces && driver in tasks && n <= left
      modifies this
      ensures Abs() == WithFile(old(Abs()), driver, n)
    {
      log := log + [Grant(driver, Range(sn, n), |writers|)];
      tasks := tasks[driver := tasks[driver] + [Range(sn, n)]];
      sn := sn + n;
      left := left - n;
      spaces := spaces[driver := spaces[driver] - n * PLOT_SIZE];
    }

    /** The inner loop: files on one drive until none fits or nothing is left. */
    method Fill(driver: string, unit: nat)
      requires KeyedByWriters(Abs()) && driver in writers && unit > 0
      modifies this
      ensures Abs() == Filled(Asked(), old(Abs()), driver, unit)
    {
      hide NextFile, KeyedByWriters, Filled;
      KeysThere(Abs(), driver);
      while left > 0
        invariant KeyedByWriters(Abs()) && driver in writers && driver in spaces && driver in tasks
        invariant Filled(Asked(), Abs(), driver, unit) == Filled(Asked(), old(Abs()), driver, unit)
        decreases left
      {
        FilledNext(Asked(), Abs(), driver, unit);
        var n := NextFile(left, cap, spaces[driver], unit);
        if n == 0 {
          return;
        }
        AddFile(driver, n);
      }
      FilledNext(Asked(), Abs(), driver, unit);
    }

    /** One pass of the allocator over the drives on the command line, which may repeat or be missing. */
    method Pass(drivers: seq<string>, unit: nat)
      requires KeyedByWriters(Abs()) && unit > 0
      modifies this
      ensures Abs() == Passed(Asked(), old(Abs()), drivers, unit)
    {
      hide KeyedByWriters, Filled;
      for i := 0 to |drivers|
        invariant KeyedByWriters(Abs())
        invariant Abs() == Passed(Asked(), old(Abs()), drivers[..i], unit)
      {
        var driver := drivers[i];
        assert drivers[..i + 1][..i] == drivers[..i];
        if driver in disk {
          ghost var known := Known(Asked(), Abs(), driver);
          if driver !in writers {
            Scan(driver);
          }
          assert Abs() == known;
          Fill(driver, unit);
        }
      }
      assert drivers[..|drivers|] == drivers;
    }

    /** Both passes. */
    method Run(drivers: seq<string>)
      requires Abs() == Unplanned(Asked()) && cap % 64 == 0
      modifies this
      ensures Abs() == Allocated(Asked(), drivers) && Consistent(Asked(), Abs())
      ensures forall d :: d in writers <==> d in drivers && d in disk
      ensures 0 < cap < INT32_MAX ==> Maximal(Asked(), Abs(), drivers)
    {
      hide Passed, Consistent, Maximal;
      Pass(drivers, 64);
      Pass(drivers, 8);
      AllocatedKeeps(Asked(), drivers);
    }
  }
}
