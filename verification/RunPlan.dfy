/** From the ranges that were allocated to the files that a run writes. */
module RunPlan {
  import opened Words
  import opened GpuPlotter
  import opened Tasks
  import opened Hasher
  import opened RangeAllocator
  import opened Pipeline

  /** The files of each writer, in the order of the workers. */
  function Rows(log: seq<Grant>, writers: seq<string>): (rows: seq<seq<Range>>)
    ensures |rows| == |writers|
  {
    seq(|writers|, w requires 0 <= w < |writers| => RangesOn(log, writers[w]))
  }

  /** The plan that the pipeline gets is what the allocator has put into the writers. */
  lemma RowsAreTheTasks(q: Request, p: Plan)
    requires Consistent(q, p)
    ensures forall w | 0 <= w < |p.writers| ::
              p.writers[w] in p.tasks && Rows(p.log, p.writers)[w] == p.tasks[p.writers[w]]
  {
  }

  lemma {:induction false} TotalOfMore(plan: seq<seq<Range>>, v: nat, r: Range)
    requires v < |plan|
    ensures PlanTotal(plan[v := plan[v] + [r]]) == PlanTotal(plan) + r.n
  {
    if v == 0 {
      SumOfMore(plan[0], r);
      assert plan[0 := plan[0] + [r]][1..] == plan[1..];
    } else {
      TotalOfMore(plan[1..], v - 1, r);
      assert plan[v := plan[v] + [r]][1..] == plan[1..][v - 1 := plan[1..][v - 1] + [r]];
    }
  }

  lemma {:induction false} SumOfMore(ranges: seq<Range>, r: Range)
    ensures SumOf(ranges + [r]) == SumOf(ranges) + r.n
  {
    if ranges == [] {
      assert [] + [r] == [r];
      assert [r][1..] == [];
    } else {
      SumOfMore(ranges[1..], r);
      assert (ranges + [r])[1..] == ranges[1..] + [r];
    }
  }

  lemma {:induction false} EmptyTotal(plan: seq<seq<Range>>)
    requires forall w | 0 <= w < |plan| :: plan[w] == []
    ensures PlanTotal(plan) == 0
  {
    if plan != [] {
      EmptyTotal(plan[1..]);
    }
  }

  /** Every grant is on exactly one writer, so the writers' files add up to what was granted. */
  lemma {:induction false} RowsAddUp(log: seq<Grant>, writers: seq<string>)
    requires Distinct(writers) && forall i | 0 <= i < |log| :: log[i].drive in writers
    ensures PlanTotal(Rows(log, writers)) == Granted(log)
  {
    if log == [] {
      EmptyTotal(Rows(log, writers));
    } else {
      var before, last := log[..|log| - 1], log[|log| - 1];
      RowsAddUp(before, writers);
      var v :| 0 <= v < |writers| && writers[v] == last.drive;
      var rows := Rows(before, writers);
      TotalOfMore(rows, v, last.r);
      forall w | 0 <= w < |writers| ensures Rows(log, writers)[w] == rows[v := rows[v] + [last.r]][w] {
        assert w != v ==> writers[w] != writers[v];
      }
      assert Rows(log, writers) == rows[v := rows[v] + [last.r]];
    }
  }

  lemma {:induction false} RangesAreGrants(log: seq<Grant>, drive: string, f: nat) returns (i: nat)
    requires f < |RangesOn(log, drive)|
    ensures i < |log| && log[i].drive == drive && log[i].r == RangesOn(log, drive)[f]
  {
    var before, last := log[..|log| - 1], log[|log| - 1];
    if f < |RangesOn(before, drive)| {
      i := RangesAreGrants(before, drive, f);
    } else {
      i := |log| - 1;
    }
  }

  lemma GrantsOnWriters(q: Request, p: Plan)
    requires Consistent(q, p)
    ensures Distinct(p.writers) && Sized(p.log, q.cap) && forall i | 0 <= i < |p.log| :: p.log[i].drive in p.writers
  {
  }

  /**
   * What the allocator leaves is what the pipeline needs: the files are nonempty and below 2^31 - 1
   * nonces, and the total that the dispatcher waits for is what was wanted less what was left over.
   */
  lemma AllocatedPlanIsReady(q: Request, drivers: seq<string>, plotId: bv64, gws: nat, parts: nat, step: nat,
                             maxFlying: nat)
    requires Allocated(q, drivers).left < q.total < 0x8000_0000_0000_0000
    requires gws > 0 && gws % 16 == 0 && parts > 0 && maxFlying > 0
    requires BlockBounds(gws, parts) && GoodStep(LaunchStep(step))
    ensures var p := Allocated(q, drivers);
            && Ready(Config(plotId, gws, parts, step, parts * gws, maxFlying, Rows(p.log, p.writers)))
            && PlanTotal(Rows(p.log, p.writers)) == q.total - p.left
  {
    hide Consistent, Allocated, BlockBounds, GoodStep, LaunchStep, RangesOn, PlanTotal, Granted, Distinct, Sized;
    var p := Allocated(q, drivers);
    AllocatedKeeps(q, drivers);
    GrantsOnWriters(q, p);
    RowsAddUp(p.log, p.writers);
    FilesNonempty(q, p);
    GrantsThere(q, p);
    AtLeast(parts, 1, gws);
  }

  lemma GrantsThere(q: Request, p: Plan)
    requires Consistent(q, p) && p.left < q.total
    ensures p.writers != [] && Granted(p.log) == q.total - p.left
  {
    GrantsOnWriters(q, p);
    hide Ascending, Sized, Clear, Distinct, SeenPast, KeyedByWriters, AllBooked, Chained, AllFullSized;
    assert p.log != [];
    assert p.log[0].drive in p.writers;
  }

  lemma FilesNonempty(q: Request, p: Plan)
    requires Consistent(q, p)
    ensures forall w, f | 0 <= w < |p.writers| && 0 <= f < |Rows(p.log, p.writers)[w]| ::
              Rows(p.log, p.writers)[w][f].n > 0
  {
    GrantsOnWriters(q, p);
    hide Consistent, RangesOn, Distinct;
    forall w, f | 0 <= w < |p.writers| && 0 <= f < |Rows(p.log, p.writers)[w]|
      ensures Rows(p.log, p.writers)[w][f].n > 0
    {
      var i := RangesAreGrants(p.log, p.writers[w], f);
    }
  }
}
