/** The queues between the threads: a locked deque and, beside it, an atomic size counter. */
module Queue {
  import opened Tasks

  const TWO_64 := 0x1_0000_0000_0000_0000

  /** The counter in 64 bits when the deque holds len items and late of them are not counted yet. */
  function Counter(len: nat, late: nat): (c: nat)
    ensures c < TWO_64
  {
    (len - late) % TWO_64
  }

  /**
   * What a thread that reads the counter learns. Without a push under way it is the length; while one
   * is, an empty deque shows as 2^64 - 1 and one item shows as none.
   */
  lemma CounterTells(len: nat, late: nat)
    requires len < TWO_64 && late <= 1
    ensures late == 0 ==> Counter(len, late) == len
    ensures Counter(len, late) == 0 <==> len == late
    ensures len == 0 && late == 1 ==> Counter(len, late) == TWO_64 - 1
  {
    if len >= late {
      assert len - late < TWO_64;
    } else {
      assert (len - late) % TWO_64 == TWO_64 - 1;
    }
  }

  /**
   * Push is two atomic actions, Append under the lock and Count after it; Pop is one. Threads may
   * interleave them in any way. put and got record what has gone in and come out.
   */
  class Queue<T> {
    var items: seq<T>
    var size: nat
    var exit: bool
    ghost var late: nat
    ghost var put: seq<T>
    ghost var got: seq<T>

    /** First in, first out, nothing lost or doubled; and the counter lags by the pushes under way. */
    ghost predicate Valid()
      reads this
    {
      put == got + items && size == Counter(|items|, late)
    }

    constructor ()
      ensures Valid() && items == [] && size == 0 && !exit && late == 0 && put == [] && got == []
    {
      items, size, exit, late, put, got := [], 0, false, 0, [], [];
    }

    method Append(v: T)
      requires Valid()
      modifies this
      ensures Valid()
      ensures items == old(items) + [v] && late == old(late) + 1 && put == old(put) + [v]
      ensures size == old(size) && got == old(got) && exit == old(exit)
    {
      items := items + [v];
      late := late + 1;
      put := put + [v];
    }

    method Count()
      requires Valid() && late > 0
      modifies this
      ensures Valid()
      ensures late == old(late) - 1 && items == old(items) && put == old(put) && got == old(got) && exit == old(exit)
    {
      OneUp(|items| - late);
      size := (size + 1) % TWO_64;
      late := late - 1;
    }

    /** pop once it need not wait any more, and pop_for: nothing after a stop or a time-out, else the oldest. */
    method Pop() returns (r: Option<T>)
      requires Valid()
      modifies this
      ensures Valid()
      ensures r.None? <==> old(exit) || old(items) == []
      ensures r.None? ==> items == old(items) && got == old(got) && size == old(size)
      ensures r.Some? ==> old(items) == [r.value] + items && got == old(got) + [r.value]
      ensures put == old(put) && late == old(late) && exit == old(exit)
    {
      if exit || items == [] {
        return None;
      }
      r := Some(items[0]);
      OneDown(|items| - late);
      size := (size + TWO_64 - 1) % TWO_64;
      got := got + [items[0]];
      items := items[1..];
    }

    method Stop()
      requires Valid()
      modifies this
      ensures Valid() && exit
      ensures items == old(items) && size == old(size) && put == old(put) && got == old(got) && late == old(late)
    {
      exit := true;
    }
  }

  lemma OneUp(x: int)
    ensures (x % TWO_64 + 1) % TWO_64 == (x + 1) % TWO_64
  {
  }

  lemma OneDown(x: int)
    ensures (x % TWO_64 + TWO_64 - 1) % TWO_64 == (x - 1) % TWO_64
  {
  }
}
