/**
 * Work items run concurrently. Here a work item is the program of its single loads and stores, and
 * a launch is any interleaving of those steps over the one shared buffer. Every complete
 * interleaving leaves the same buffer, because each item stays within its own addresses.
 */
module Schedule {
  import opened Words
  import opened Layout

  /** An index into the 65536 words of one nonce. */
  type Index = k: nat | k < 65536

  type DRow = s: seq<word> | |s| == 8 witness [0, 0, 0, 0, 0, 0, 0, 0]

  /** What a work item does next to memory; a load continues with the word it read. */
  datatype Program =
    | Done
    | Load(at: Index, cont: word -> Program)
    | Store(at: Index, v: word, next: Program)

  // ---- one work item alone -------------------------------------------------------------

  function Exec(p: Program, view: seq<word>, n: nat): (r: (Program, seq<word>))
    requires |view| == 65536
    ensures |r.1| == 65536
    decreases n
  {
    if n == 0 then (p, view) else
    match p
    case Done => (p, view)
    case Load(at, cont) => Exec(cont(view[at]), view, n - 1)
    case Store(at, v, next) => Exec(next, view[at := v], n - 1)
  }

  /** Run alone on this view, the program ends and leaves out. */
  ghost predicate Leaves(p: Program, view: seq<word>, out: seq<word>) {
    |view| == 65536 && exists n: nat :: Exec(p, view, n) == (Done, out)
  }

  lemma LeavesDone(view: seq<word>)
    requires |view| == 65536
    ensures Leaves(Done, view, view)
  {
    assert Exec(Done, view, 0) == (Done, view);
  }

  lemma LeavesLoad(at: Index, cont: word -> Program, view: seq<word>, out: seq<word>)
    requires |view| == 65536 && Leaves(cont(view[at]), view, out)
    ensures Leaves(Load(at, cont), view, out)
  {
    var n: nat :| Exec(cont(view[at]), view, n) == (Done, out);
    assert Exec(Load(at, cont), view, n + 1) == (Done, out);
  }

  lemma LeavesStore(at: Index, v: word, next: Program, view: seq<word>, out: seq<word>)
    requires |view| == 65536 && Leaves(next, view[at := v], out)
    ensures Leaves(Store(at, v, next), view, out)
  {
    var n: nat :| Exec(next, view[at := v], n) == (Done, out);
    assert Exec(Store(at, v, next), view, n + 1) == (Done, out);
  }

  /** One step of a program that is not done keeps what it leaves. */
  lemma LeavesAfterStep(p: Program, view: seq<word>, out: seq<word>)
    requires Leaves(p, view, out)
    ensures p.Load? ==> Leaves(p.cont(view[p.at]), view, out)
    ensures p.Store? ==> Leaves(p.next, view[p.at := p.v], out)
    ensures p.Done? ==> out == view
  {
    var n: nat :| Exec(p, view, n) == (Done, out);
    if p.Load? {
      assert Exec(p.cont(view[p.at]), view, n - 1) == (Done, out);
    } else if p.Store? {
      assert Exec(p.next, view[p.at := p.v], n - 1) == (Done, out);
    }
  }

  // ---- all work items together -----------------------------------------------------------

  datatype Pool = Pool(items: seq<Program>, flat: seq<word>)

  ghost predicate ValidPool(pool: Pool) {
    forall g | 0 <= g < |pool.items| :: Fits(|pool.flat|, g)
  }

  /** Work item g takes its next step on the shared buffer. */
  function StepOf(pool: Pool, g: nat): (next: Pool)
    requires ValidPool(pool) && g < |pool.items|
    ensures |next.items| == |pool.items| && |next.flat| == |pool.flat|
  {
    var flat := pool.flat;
    match pool.items[g]
    case Done => pool
    case Load(at, cont) =>
      AddressDecodes(|flat|, g, at / 8, at % 8);
      SmallAddress(g, at / 8, at % 8);
      pool.(items := pool.items[g := cont(flat[Address32(g, at / 8, at % 8)])])
    case Store(at, v, next) =>
      AddressDecodes(|flat|, g, at / 8, at % 8);
      SmallAddress(g, at / 8, at % 8);
      Pool(pool.items[g := next], flat[Address32(g, at / 8, at % 8) := v])
  }

  /** The steps of a schedule: which work item moves, time after time. */
  function Interleave(pool: Pool, schedule: seq<nat>): (next: Pool)
    requires ValidPool(pool) && forall i | 0 <= i < |schedule| :: schedule[i] < |pool.items|
    ensures |next.items| == |pool.items| && |next.flat| == |pool.flat|
    decreases |schedule|
  {
    if schedule == [] then pool else Interleave(StepOf(pool, schedule[0]), schedule[1..])
  }

  /** Every item, were it to run alone from here on, would leave its own outcome. */
  ghost predicate WillLeave(pool: Pool, outs: seq<seq<word>>) {
    && ValidPool(pool)
    && |outs| == |pool.items|
    && forall g | 0 <= g < |outs| :: Leaves(pool.items[g], ViewOf(pool.flat, g), outs[g])
  }

  lemma StepKeepsOutcomes(pool: Pool, g: nat, outs: seq<seq<word>>)
    requires WillLeave(pool, outs) && g < |pool.items|
    ensures WillLeave(StepOf(pool, g), outs)
    ensures forall at | 0 <= at < |pool.flat| && OwnerOf(at) >= |pool.items| ::
      StepOf(pool, g).flat[at] == pool.flat[at]
  {
    hide ViewOf, Address, Address32, OwnerOf, HashAt, WordAt, Leaves;
    var p, flat := pool.items[g], pool.flat;
    var next := StepOf(pool, g);
    assert Fits(|flat|, g);
    if !p.Done? {
      SmallAddress(g, p.at / 8, p.at % 8);
    }
    LeavesAfterStep(p, ViewOf(flat, g), outs[g]);
    if p.Load? {
      ViewAt(flat, g, p.at / 8, p.at % 8);
      assert 8 * (p.at / 8) + p.at % 8 == p.at;
    } else if p.Store? {
      AddressDecodes(|flat|, g, p.at / 8, p.at % 8);
      assert 8 * (p.at / 8) + p.at % 8 == p.at;
      forall h | 0 <= h < |outs| ensures Leaves(next.items[h], ViewOf(next.flat, h), outs[h]) {
        ViewUpdate(flat, g, p.at / 8, p.at % 8, p.v, h);
      }
    }
  }

  lemma {:induction false} InterleaveKeepsOutcomes(pool: Pool, schedule: seq<nat>, outs: seq<seq<word>>)
    requires WillLeave(pool, outs) && forall i | 0 <= i < |schedule| :: schedule[i] < |pool.items|
    ensures WillLeave(Interleave(pool, schedule), outs)
    ensures forall at | 0 <= at < |pool.flat| && OwnerOf(at) >= |pool.items| ::
      Interleave(pool, schedule).flat[at] == pool.flat[at]
    decreases |schedule|
  {
    hide WillLeave, OwnerOf;
    if schedule != [] {
      assert ValidPool(pool) by {
        WillLeaveValid(pool, outs);
      }
      StepKeepsOutcomes(pool, schedule[0], outs);
      InterleaveKeepsOutcomes(StepOf(pool, schedule[0]), schedule[1..], outs);
    }
  }

  lemma WillLeaveValid(pool: Pool, outs: seq<seq<word>>)
    requires WillLeave(pool, outs)
    ensures ValidPool(pool) && |outs| == |pool.items|
  {
  }

  /**
   * Schedule independence: however the steps of the work items interleave, once all are done the
   * view of each is what it leaves when run alone, and the rest of the buffer is untouched.
   */
  lemma ScheduleIndependence(pool: Pool, schedule: seq<nat>, outs: seq<seq<word>>)
    requires WillLeave(pool, outs) && forall i | 0 <= i < |schedule| :: schedule[i] < |pool.items|
    requires forall g | 0 <= g < |pool.items| :: Interleave(pool, schedule).items[g].Done?
    ensures forall g | 0 <= g < |pool.items| ::
      Fits(|pool.flat|, g) && ViewOf(Interleave(pool, schedule).flat, g) == outs[g]
    ensures forall at | 0 <= at < |pool.flat| && OwnerOf(at) >= |pool.items| ::
      Interleave(pool, schedule).flat[at] == pool.flat[at]
  {
    hide ViewOf, OwnerOf, Interleave, Leaves;
    InterleaveKeepsOutcomes(pool, schedule, outs);
    var end := Interleave(pool, schedule);
    forall g | 0 <= g < |pool.items| ensures ViewOf(end.flat, g) == outs[g] {
      LeavesAfterStep(end.items[g], ViewOf(end.flat, g), outs[g]);
    }
  }

  // ---- a complete schedule exists -------------------------------------------------------------

  lemma StepOnView(pool: Pool, g: nat)
    requires ValidPool(pool) && g < |pool.items|
    ensures var p, view, next := pool.items[g], ViewOf(pool.flat, g), StepOf(pool, g);
            && (p.Load? ==> next.items[g] == p.cont(view[p.at]) && ViewOf(next.flat, g) == view)
            && (p.Store? ==> next.items[g] == p.next && ViewOf(next.flat, g) == view[p.at := p.v])
            && forall h | 0 <= h < |pool.items| && h != g :: next.items[h] == pool.items[h]
  {
    hide ViewOf, Address, Address32, OwnerOf, HashAt, WordAt;
    var p, flat := pool.items[g], pool.flat;
    assert Fits(|flat|, g);
    if !p.Done? {
      SmallAddress(g, p.at / 8, p.at % 8);
      ViewAt(flat, g, p.at / 8, p.at % 8);
      assert 8 * (p.at / 8) + p.at % 8 == p.at;
    }
    if p.Store? {
      ViewUpdate(flat, g, p.at / 8, p.at % 8, p.v, g);
    }
  }

  /** Stepping one item until it is done leaves what the other items do next alone. */
  lemma {:induction false} RunAlone(pool: Pool, g: nat, n: nat) returns (schedule: seq<nat>)
    requires ValidPool(pool) && g < |pool.items| && Exec(pool.items[g], ViewOf(pool.flat, g), n).0.Done?
    ensures forall i | 0 <= i < |schedule| :: schedule[i] == g
    ensures Interleave(pool, schedule).items[g].Done?
    ensures forall h | 0 <= h < |pool.items| && h != g :: Interleave(pool, schedule).items[h] == pool.items[h]
    decreases n
  {
    hide ViewOf, StepOf;
    if pool.items[g].Done? {
      schedule := [];
    } else {
      var next := StepOf(pool, g);
      StepOnView(pool, g);
      schedule := RunAlone(next, g, n - 1);
      schedule := [g] + schedule;
    }
  }

  lemma {:induction false} InterleaveSplit(pool: Pool, a: seq<nat>, b: seq<nat>)
    requires ValidPool(pool)
    requires forall i | 0 <= i < |a| :: a[i] < |pool.items|
    requires forall i | 0 <= i < |b| :: b[i] < |pool.items|
    ensures Interleave(pool, a + b) == Interleave(Interleave(pool, a), b)
    decreases |a|
  {
    hide StepOf;
    if a == [] {
      assert a + b == b;
    } else {
      assert (a + b)[1..] == a[1..] + b;
      InterleaveSplit(StepOf(pool, a[0]), a[1..], b);
    }
  }

  /** When each item would end if it ran alone, running one after the other ends the first n of them. */
  lemma {:induction false} InTurn(pool: Pool, outs: seq<seq<word>>, n: nat) returns (schedule: seq<nat>)
    requires WillLeave(pool, outs) && n <= |pool.items|
    ensures forall i | 0 <= i < |schedule| :: schedule[i] < |pool.items|
    ensures forall g | 0 <= g < n :: Interleave(pool, schedule).items[g].Done?
  {
    hide WillLeave, Interleave;
    WillLeaveValid(pool, outs);
    if n == 0 {
      schedule := [];
    } else {
      var before := InTurn(pool, outs, n - 1);
      InterleaveKeepsOutcomes(pool, before, outs);
      var mid := Interleave(pool, before);
      var steps := LeavesSteps(mid, outs, n - 1);
      var last := RunAlone(mid, n - 1, steps);
      InterleaveSplit(pool, before, last);
      schedule := before + last;
    }
  }

  lemma LeavesSteps(pool: Pool, outs: seq<seq<word>>, g: nat) returns (n: nat)
    requires WillLeave(pool, outs) && g < |pool.items|
    ensures Fits(|pool.flat|, g) && Exec(pool.items[g], ViewOf(pool.flat, g), n).0.Done?
  {
    hide ViewOf, Exec;
    assert Leaves(pool.items[g], ViewOf(pool.flat, g), outs[g]);
    n :| Exec(pool.items[g], ViewOf(pool.flat, g), n) == (Done, outs[g]);
  }
}
