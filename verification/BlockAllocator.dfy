/** The allocator that recycles the memory blocks of hashing tasks. */
module BlockAllocator {
  import opened Tasks

  /** An address and a length; the dummy block (0, 0) stands for failure. */
  datatype Block = Block(data: nat, len: nat)

  const DUMMY := Block(0, 0)

  ghost predicate Apart(x: Block, y: Block) {
    && x.data != y.data
    && (x.data + x.len <= y.data || y.data + y.len <= x.data)
  }

  function SumLengths(blocks: seq<Block>): nat {
    if blocks == [] then 0 else SumLengths(blocks[..|blocks| - 1]) + blocks[|blocks| - 1].len
  }

  /** Blocks of one size take up that size times their number. */
  lemma {:induction false} SumOfEqualLengths(blocks: seq<Block>, len: nat)
    requires forall b | b in blocks :: b.len == len
    ensures SumLengths(blocks) == |blocks| * len
  {
    if blocks != [] {
      var rest := blocks[..|blocks| - 1];
      forall b | b in rest ensures b.len == len {
        assert b in blocks;
      }
      SumOfEqualLengths(rest, len);
      assert blocks[|blocks| - 1] in blocks;
      OneMore(|rest|, len);
    }
  }

  lemma OneMore(n: nat, len: nat)
    ensures n * len + len == (n + 1) * len
  {
  }

  /** The two maps hold every block once, under its address, and never at address 0. */
  ghost predicate Keyed(free: map<nat, Block>, used: map<nat, Block>, blocks: seq<Block>) {
    && free.Keys !! used.Keys
    && (forall k | k in free :: free[k].data == k && free[k] in blocks)
    && (forall k | k in used :: used[k].data == k && used[k] in blocks)
    && (forall b | b in blocks :: b.data in free || b.data in used)
    && 0 !in free && 0 !in used
    && |blocks| == |free| + |used|
  }

  ghost predicate AllApart(blocks: seq<Block>) {
    forall i, j | 0 <= i < j < |blocks| :: Apart(blocks[i], blocks[j])
  }

  lemma KeyedReuse(free: map<nat, Block>, used: map<nat, Block>, blocks: seq<Block>, key: nat)
    requires Keyed(free, used, blocks) && key in free
    ensures free[key].data == key && key !in used
    ensures Keyed(free - {key}, used[key := free[key]], blocks)
  {
    assert (free - {key}).Keys == free.Keys - {key};
  }

  lemma KeyedRetain(free: map<nat, Block>, used: map<nat, Block>, blocks: seq<Block>, key: nat)
    requires Keyed(free, used, blocks) && key in used
    ensures used[key].data == key
    ensures Keyed(free[key := used[key]], used - {key}, blocks)
  {
    assert (used - {key}).Keys == used.Keys - {key};
  }

  lemma KeyedObtain(free: map<nat, Block>, used: map<nat, Block>, blocks: seq<Block>, b: Block)
    requires Keyed(free, used, blocks) && b.data != 0 && forall x | x in blocks :: Apart(x, b)
    ensures b.data !in free && b.data !in used
    ensures Keyed(free, used[b.data := b], blocks + [b])
  {
    var more := blocks + [b];
    assert forall x | x in blocks :: x in more;
    assert b in more;
  }

  lemma ApartObtain(blocks: seq<Block>, b: Block)
    requires AllApart(blocks) && forall x | x in blocks :: Apart(x, b)
    ensures AllApart(blocks + [b]) && SumLengths(blocks + [b]) == SumLengths(blocks) + b.len
  {
    hide Apart;
    assert (blocks + [b])[..|blocks + [b]| - 1] == blocks;
  }

  lemma ApartMembers(blocks: seq<Block>, x: Block, y: Block)
    requires AllApart(blocks) && x in blocks && y in blocks && x != y
    ensures Apart(x, y)
  {
    var i :| 0 <= i < |blocks| && blocks[i] == x;
    var j :| 0 <= j < |blocks| && blocks[j] == y;
    assert if i < j then Apart(blocks[i], blocks[j]) else Apart(blocks[j], blocks[i]);
  }

  class BlockAllocator {
    const maxMem: nat
    var free: map<nat, Block>
    var used: map<nat, Block>
    var total: nat
    /** Every block ever obtained, oldest first: none is given back before the end. */
    ghost var blocks: seq<Block>

    ghost predicate Valid()
      reads this
    {
      && Keyed(free, used, blocks)
      && AllApart(blocks)
      && total == SumLengths(blocks) <= maxMem
    }

    constructor (budget: nat)
      ensures Valid() && free == map[] && used == map[] && total == 0 && maxMem == budget
    {
      maxMem, free, used, total, blocks := budget, map[], map[], 0, [];
    }

    /** Blocks held under different addresses never overlap, whether in use or free. */
    lemma HeldApart(j: nat, k: nat)
      requires Valid() && j != k
      requires (j in used || j in free) && (k in used || k in free)
      ensures Apart(if j in used then used[j] else free[j], if k in used then used[k] else free[k])
    {
      hide AllApart, Apart;
      ApartMembers(blocks, if j in used then used[j] else free[j], if k in used then used[k] else free[k]);
    }

    /**
     * With blocks of one length, the number of free and used ones decides about the budget: while one
     * more fits it, the allocator does not refuse for that reason.
     */
    lemma BudgetByCount(len: nat)
      requires Valid() && forall b | b in blocks :: b.len == len
      ensures total == (|free| + |used|) * len
      ensures (|free| + |used|) * len + len <= maxMem <==> total + len <= maxMem
    {
      hide AllApart;
      SumOfEqualLengths(blocks, len);
    }

    /** What the system may answer to a request for len bytes: page-aligned memory of its own. */
    ghost predicate FreshMemory(at: nat, len: nat)
      reads this
    {
      && at != 0 && at % 4096 == 0
      && forall b | b in blocks :: Apart(b, Block(at, len))
    }

    /**
     * allocate: a free block of exactly this length if there is one, otherwise new memory within the
     * budget, otherwise the dummy. answer is the system's answer, None for a failed allocation.
     */
    method Allocate(len: nat, sysFree: nat, answer: Option<nat>) returns (r: Block)
      requires Valid()
      requires answer.Some? ==> FreshMemory(answer.value, len)
      modifies this
      ensures Valid()
      ensures r == DUMMY <==>
        && (forall k | k in old(free) :: old(free)[k].len != len)
        && (old(total) + len > maxMem || sysFree < len || answer.None?)
      ensures r == DUMMY ==> free == old(free) && used == old(used) && total == old(total) && blocks == old(blocks)
      ensures r != DUMMY ==> r.len == len && r.data !in old(used) && used == old(used)[r.data := r]
      ensures r != DUMMY && r.data in old(free) ==>
        free == old(free) - {r.data} && r == old(free)[r.data] && total == old(total) && blocks == old(blocks)
      ensures r != DUMMY && r.data !in old(free) ==>
        && free == old(free) && total == old(total) + len && blocks == old(blocks) + [r]
        && (forall k | k in free :: free[k].len != len)
    {
      if key :| key in free && free[key].len == len {
        r := Reuse(key);
      } else if total + len > maxMem || sysFree < len || answer.None? {
        r := DUMMY;
      } else {
        r := Obtain(answer.value, len);
      }
    }

    method Reuse(key: nat) returns (r: Block)
      requires Valid() && key in free
      modifies this
      ensures Valid()
      ensures r == old(free)[key] && r.data == key && r.data !in old(used)
      ensures used == old(used)[key := r] && free == old(free) - {key}
      ensures total == old(total) && blocks == old(blocks)
    {
      hide Keyed, AllApart, SumLengths;
      KeyedReuse(free, used, blocks, key);
      r := free[key];
      used := used[key := r];
      free := free - {key};
    }

    method Obtain(at: nat, len: nat) returns (r: Block)
      requires Valid() && FreshMemory(at, len) && total + len <= maxMem
      modifies this
      ensures Valid()
      ensures r == Block(at, len) && at !in old(free) && at !in old(used)
      ensures used == old(used)[at := r] && free == old(free)
      ensures total == old(total) + len && blocks == old(blocks) + [r]
    {
      hide Keyed, AllApart, Apart, SumLengths;
      r := Block(at, len);
      KeyedObtain(free, used, blocks, r);
      ApartObtain(blocks, r);
      total := total + len;
      used := used[at := r];
      blocks := blocks + [r];
    }

    /** retain: a used block becomes free again. */
    method Retain(b: Block)
      requires Valid() && b.data in used && used[b.data] == b
      modifies this
      ensures Valid()
      ensures free == old(free)[b.data := b] && used == old(used) - {b.data}
      ensures total == old(total) && blocks == old(blocks)
    {
      hide Keyed, AllApart, SumLengths;
      KeyedRetain(free, used, blocks, b.data);
      free := free[b.data := b];
      used := used - {b.data};
    }
  }
}
