/** The dispatcher and the block allocator: which steps its answers are, and that the budget suffices. */
module Allocation {
  import opened Words
  import opened CpuPlotter
  import opened Tasks
  import opened BlockAllocator
  import opened Pipeline
  import opened PipelineTotals
  import opened PipelineSafety
  import opened PipelineContents
  import opened EndToEnd

  /** The allocator holds the free and used blocks of the state, all of the length of a task. */
  ghost predicate Holds(c: Config, s: Sys, a: BlockAllocator)
    reads a
  {
    && a.Valid()
    && (forall b | b in a.blocks :: b.len == c.workSize * PLOT_SIZE)
    && a.free.Keys == s.free && a.used.Keys == s.used
  }

  /**
   * The dispatcher's budget, in any state of any run. While fewer than maxFlying tasks are in flight
   * and no block is free, one more block fits the memory limit, so the allocator never refuses for
   * that reason.
   */
  lemma AllocationFitsBudget(c: Config, s: Sys, a: BlockAllocator)
    requires Sound(c, s) && c.workSize > 0 && Holds(c, s, a)
    requires c.maxFlying <= a.maxMem / c.workSize / PLOT_SIZE
    requires s.ongoing < c.maxFlying && s.free == {}
    ensures a.total + c.workSize * PLOT_SIZE <= a.maxMem
  {
    hide InFlight, Ordered, Contents;
    AllocatorHasRoom(a, |s.used|, c.maxFlying, c.workSize);
  }

  lemma AllocatorHasRoom(a: BlockAllocator, n: nat, flying: nat, size: nat)
    requires a.Valid() && (forall b | b in a.blocks :: b.len == size * PLOT_SIZE) && size > 0
    requires |a.free.Keys| == 0 && |a.used.Keys| == n < flying <= a.maxMem / size / PLOT_SIZE
    ensures a.total + size * PLOT_SIZE <= a.maxMem
  {
    a.BudgetByCount(size * PLOT_SIZE);
    BudgetFits(n, flying, size, a.maxMem);
  }

  lemma BudgetFits(n: nat, flying: nat, size: nat, maxMem: nat)
    requires size > 0 && n < flying <= maxMem / size / PLOT_SIZE
    ensures n * (size * PLOT_SIZE) + size * PLOT_SIZE <= maxMem
  {
    var q := maxMem / size;
    assert (n + 1) * PLOT_SIZE <= q;
    assert q * size <= maxMem;
    AtLeast(q, (n + 1) * PLOT_SIZE, size);
    assert (n + 1) * PLOT_SIZE * size == n * (size * PLOT_SIZE) + size * PLOT_SIZE;
  }

  // ---- the allocator along a run -------------------------------------------------------------

  method NewAllocator(ghost c: Config, ghost s: Sys, budget: nat) returns (a: BlockAllocator)
    requires Initial(c, s)
    ensures Holds(c, s, a) && a.maxMem == budget && fresh(a)
  {
    a := new BlockAllocator(budget);
  }

  /** A report: its block goes back to the allocator. */
  method RetainReported(ghost c: Config, ghost s: Sys, a: BlockAllocator, t: HashTask)
    requires Sound(c, s) && Holds(c, s, a) && s.reports != [] && t == s.reports[0]
    modifies a
    ensures Holds(c, Apply(c, s, Retain), a)
  {
    hide Sound, Apply, Keyed, AllApart, SumLengths;
    ReportedIsUsed(c, s);
    UsedHasData(a, t.block);
    a.Retain(a.used[t.block]);
  }

  lemma ReportedIsUsed(c: Config, s: Sys)
    requires Sound(c, s) && s.reports != []
    ensures s.reports[0].block in s.used
    ensures var after, b := Apply(c, s, Retain), s.reports[0].block;
            after.free == s.free + {b} && after.used == s.used - {b}
  {
    hide InFlight, Ordered, Contents;
    RetiredIsUsed(c, s);
  }

  lemma UsedHasData(a: BlockAllocator, b: nat)
    requires a.Valid() && b in a.used
    ensures a.used[b].data == b
  {
    hide AllApart, SumLengths;
  }

  /** When all blocks have the length of a task, one is reused if any is free. */
  lemma FreeAreTaskSized(c: Config, s: Sys, a: BlockAllocator)
    requires Holds(c, s, a)
    ensures forall b | b in a.free :: a.free[b].len == c.workSize * PLOT_SIZE
  {
    hide AllApart, SumLengths;
  }

  /** Which blocks are free and used after a dispatch. */
  lemma DispatchedBlocks(c: Config, s: Sys, b: nat)
    requires Enabled(c, s, Dispatch(b))
    ensures var after := Apply(c, s, Dispatch(b));
            if NextPiece(s.ws[Selected(s)].files, s.ws[Selected(s)].cursor, c.workSize).piece.Some?
            then after.free == s.free - {b} && after.used == s.used + {b}
            else after.free == s.free + {b} && after.used == s.used
  {
    hide MayDispatch, NextPiece;
  }

  /** No other step changes which blocks are free and used. */
  lemma OtherStepsKeepBlocks(c: Config, s: Sys, l: Label)
    requires Enabled(c, s, l) && !l.Retain? && !l.Dispatch?
    ensures Apply(c, s, l).free == s.free && Apply(c, s, l).used == s.used
  {
    hide AttemptBy, TornBy, HeldAlready, MayDispatch, Commit, Torn, Overwrite, Push, Pop;
  }

  /** Asking for a block: refusal is a matter of memory, and otherwise the block may be dispatched. */
  method AllocateBlock(ghost c: Config, ghost s: Sys, a: BlockAllocator, size: nat, sysFree: nat, answer: Option<nat>)
    returns (r: Block)
    requires Holds(c, s, a) && c.workSize == size
    requires answer.Some? ==> a.FreshMemory(answer.value, size * PLOT_SIZE)
    modifies a
    ensures a.Valid() && forall b | b in a.blocks :: b.len == size * PLOT_SIZE
    ensures r == DUMMY ==>
      && Holds(c, s, a) && s.free == {}
      && (a.total + size * PLOT_SIZE > a.maxMem || sysFree < size * PLOT_SIZE || answer.None?)
    ensures r != DUMMY ==>
      && Allocatable(s, r.data) && r.data !in s.used
      && a.free.Keys == s.free - {r.data} && a.used.Keys == s.used + {r.data} && a.used[r.data] == r
  {
    hide Keyed, AllApart, SumLengths;
    FreeAreTaskSized(c, s, a);
    r := a.Allocate(size * PLOT_SIZE, sysFree, answer);
    if r == DUMMY {
      assert forall b | b in a.free :: false;
    } else if r.data !in old(a.free) {
      assert forall b | b in old(a.free) :: false;
    }
  }

  /**
   * Asking for a block for the selected writer: a refusal and a dispatch are both steps of the
   * pipeline, and the allocator goes along with them. hasPiece tells whether the writer has anything
   * left to cut; if not, the block goes back at once.
   */
  method AllocateForTask(ghost c: Config, ghost s: Sys, a: BlockAllocator, size: nat, hasPiece: bool,
                         sysFree: nat, answer: Option<nat>)
    returns (ghost l: Label)
    requires Sound(c, s) && Holds(c, s, a) && c.workSize == size > 0
    requires MayDispatch(c, s) && s.ws != [] && s.ws[Selected(s)].size == 0
    requires hasPiece <==> NextPiece(s.ws[Selected(s)].files, s.ws[Selected(s)].cursor, size).piece.Some?
    requires answer.Some? ==> a.FreshMemory(answer.value, size * PLOT_SIZE)
    modifies a
    ensures (l == NoMemory || l.Dispatch?) && Enabled(c, s, l) && Holds(c, Apply(c, s, l), a)
    ensures c.maxFlying <= a.maxMem / size / PLOT_SIZE && sysFree >= size * PLOT_SIZE && answer.Some? ==> l != NoMemory
  {
    hide Sound, NextPiece, Keyed, AllApart, SumLengths, Apply, CounterMeets, PlanTotal;
    var r := AllocateBlock(c, s, a, size, sysFree, answer);
    if r == DUMMY {
      l := NoMemory;
      OtherStepsKeepBlocks(c, s, l);
      if c.maxFlying <= a.maxMem / size / PLOT_SIZE {
        AllocationFitsBudget(c, s, a);
      }
    } else {
      l := Dispatch(r.data);
      DispatchedBlocks(c, s, r.data);
      if !hasPiece {
        a.Retain(r);
      }
    }
  }
}
