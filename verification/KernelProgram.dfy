/** The kernel as a program of single loads and stores, and what any interleaving of it computes. */
module KernelProgram {
  import opened Words
  import opened Shabal
  import opened Layout
  import opened WordPlot
  import opened CpuPlotter
  import opened Kernel
  import opened Schedule

  type Pair = s: seq<word> | |s| == 2 witness [0, 0]

  // ---- the program of one work item -------------------------------------------------------

  function Load16(at: nat, acc: seq<word>, k: BRow -> Program): Program
    requires |acc| <= 16 && at + 16 <= 65536
    decreases 16 - |acc|
  {
    if |acc| == 16 then k(acc) else Load(at + |acc|, (w: word) => Load16(at, acc + [w], k))
  }

  function Load8(at: nat, acc: seq<word>, k: DRow -> Program): Program
    requires |acc| <= 8 && at + 8 <= 65536
    decreases 8 - |acc|
  {
    if |acc| == 8 then k(acc) else Load(at + |acc|, (w: word) => Load8(at, acc + [w], k))
  }

  function StoreFrom(at: nat, d: DRow, i: nat, next: Program): Program
    requires at + 8 <= 65536 && i <= 8
    decreases 8 - i
  {
    if i == 8 then next else Store(at + i, d[i], StoreFrom(at, d, i + 1, next))
  }

  function XorFrom(k: nat, d: DRow): Program
    requires k <= 65536
    decreases 65536 - k
  {
    if k == 65536 then Done else Load(k, (v: word) => Store(k, Xor(v, d[k % 8]), XorFrom(k + 1, d)))
  }

  /** Blocks i, ..., num - 1 of the message, then k with the state they leave. */
  function ReadFrom(hash: nat, i: nat, num: nat, s: State, k: State -> Program): Program
    requires hash + 2 * num <= NUM_HASHES && i <= num
    decreases num - i
  {
    if i == num then k(s)
    else Load16(8 * (hash + 2 * i), [], (m: BRow) => ReadFrom(hash, i + 1, num, Compress(s, m), k))
  }

  function CapBlock(): BRow {
    [0x80, 0, 0, 0, 0, 0, 0, 0, 0, 0, 0, 0, 0, 0, 0, 0]
  }

  function EvenBlock(id: Pair, nonce: Pair): BRow {
    id + nonce + [0x80, 0, 0, 0, 0, 0, 0, 0, 0, 0, 0, 0]
  }

  function OddBlock(last: DRow, id: Pair, nonce: Pair): BRow {
    last + id + nonce + [0x80, 0, 0, 0]
  }

  /** The padded last block, then k with it. */
  function LastThen(hash: nat, num: nat, id: Pair, nonce: Pair, k: BRow -> Program): Program {
    if num == MESSAGE_CAP then k(CapBlock())
    else if hash % 2 == 0 then k(EvenBlock(id, nonce))
    else Load8(8 * (NUM_HASHES - 1), [], (last: DRow) => k(OddBlock(last, id, nonce)))
  }

  /** The rest of the kernel from this hash on; d is the last digest computed. */
  function Item(hash: int, end: int, d: DRow, id: Pair, nonce: Pair): Program
    requires -1 <= end <= hash <= NUM_HASHES
    decreases hash - end
  {
    hide Initial, Finish;
    if hash == end then (if end == -1 then XorFrom(0, d) else Done)
    else
      ReadFrom(hash, 0, Blocks(hash), Initial(), (s: State) =>
        LastThen(hash, Blocks(hash), id, nonce, (m: BRow) =>
          AfterDigest(hash, end, Finish(s, m), id, nonce)))
  }

  function AfterDigest(hash: int, end: int, d: DRow, id: Pair, nonce: Pair): Program
    requires -1 <= end < hash <= NUM_HASHES
    decreases hash - end, 0
  {
    if hash > 0 then StoreFrom(8 * (hash - 1), d, 0, Item(hash - 1, end, d, id, nonce))
    else Item(hash - 1, end, d, id, nonce)
  }

  // ---- what it computes when it runs alone ---------------------------------------------------

  lemma {:induction false} Load16Leaves(at: nat, acc: seq<word>, k: BRow -> Program, view: seq<word>, out: seq<word>)
    requires |acc| <= 16 && at + 16 <= 65536 && |view| == 65536 && acc == view[at..at + |acc|]
    requires Leaves(k(view[at..at + 16]), view, out)
    ensures Leaves(Load16(at, acc, k), view, out)
    decreases 16 - |acc|
  {
    hide Leaves;
    if |acc| < 16 {
      var n := |acc|;
      assert acc + [view[at + n]] == view[at..at + (n + 1)];
      Load16Leaves(at, acc + [view[at + n]], k, view, out);
      LeavesLoad(at + n, (w: word) => Load16(at, acc + [w], k), view, out);
    }
  }

  lemma {:induction false} Load8Leaves(at: nat, acc: seq<word>, k: DRow -> Program, view: seq<word>, out: seq<word>)
    requires |acc| <= 8 && at + 8 <= 65536 && |view| == 65536 && acc == view[at..at + |acc|]
    requires Leaves(k(view[at..at + 8]), view, out)
    ensures Leaves(Load8(at, acc, k), view, out)
    decreases 8 - |acc|
  {
    hide Leaves;
    if |acc| < 8 {
      var n := |acc|;
      assert acc + [view[at + n]] == view[at..at + (n + 1)];
      Load8Leaves(at, acc + [view[at + n]], k, view, out);
      LeavesLoad(at + n, (w: word) => Load8(at, acc + [w], k), view, out);
    }
  }

  lemma {:induction false} StoreFromLeaves(at: nat, d: DRow, i: nat, next: Program, view: seq<word>, out: seq<word>)
    requires at + 8 <= 65536 && i <= 8 && |view| == 65536
    requires Leaves(next, view[..at + i] + d[i..] + view[at + 8..], out)
    ensures Leaves(StoreFrom(at, d, i, next), view, out)
    decreases 8 - i
  {
    hide Leaves;
    if i == 8 {
      assert view[..at + i] + d[i..] + view[at + 8..] == view;
    } else {
      var after := view[at + i := d[i]];
      assert after[..at + (i + 1)] + d[i + 1..] + after[at + 8..] == view[..at + i] + d[i..] + view[at + 8..];
      StoreFromLeaves(at, d, i + 1, next, after, out);
      LeavesStore(at + i, d[i], StoreFrom(at, d, i + 1, next), view, out);
    }
  }

  lemma {:induction false} XorFromLeaves(k: nat, d: DRow, view: seq<word>, out: seq<word>)
    requires k <= 65536 && |view| == |out| == 65536
    requires forall i | 0 <= i < 65536 :: out[i] == if i < k then view[i] else Xor(view[i], d[i % 8])
    ensures Leaves(XorFrom(k, d), view, out)
    decreases 65536 - k
  {
    hide Leaves, Xor;
    if k == 65536 {
      assert view == out;
      LeavesDone(view);
    } else {
      var v := Xor(view[k], d[k % 8]);
      XorFromLeaves(k + 1, d, view[k := v], out);
      LeavesStore(k, v, XorFrom(k + 1, d), view, out);
      LeavesLoad(k, (v: word) => Store(k, Xor(v, d[k % 8]), XorFrom(k + 1, d)), view, out);
    }
  }

  lemma {:induction false} ReadFromLeaves(hash: nat, i: nat, num: nat, s: State, k: State -> Program,
                                          view: seq<word>, seed: seq<word>, out: seq<word>)
    requires hash + 2 * num <= NUM_HASHES && i <= num && |view| == 65536
    requires s == Absorb(view[8 * hash..] + seed, i)
    requires Leaves(k(Absorb(view[8 * hash..] + seed, num)), view, out)
    ensures Leaves(ReadFrom(hash, i, num, s, k), view, out)
    decreases num - i
  {
    hide Leaves, Compress;
    if i < num {
      var t := view[8 * hash..] + seed;
      var at := 8 * (hash + 2 * i);
      AbsorbMore(t, i);
      assert t[16 * i..16 * i + 16] == view[at..at + 16];
      ReadFromLeaves(hash, i + 1, num, Compress(s, view[at..at + 16]), k, view, seed, out);
      assert view[at..at + 0] == [];
      Load16Leaves(at, [], (m: BRow) => ReadFrom(hash, i + 1, num, Compress(s, m), k), view, out);
    }
  }

  /** The last block that LastThen hands on, and that it is the right one. */
  ghost function LastBlockOf(hash: nat, num: nat, id: Pair, nonce: Pair, view: seq<word>): BRow
    requires |view| == 65536
  {
    if num == MESSAGE_CAP then CapBlock()
    else if hash % 2 == 0 then EvenBlock(id, nonce)
    else OddBlock(view[8 * (NUM_HASHES - 1)..], id, nonce)
  }

  lemma LastThenLeaves(hash: nat, num: nat, id: Pair, nonce: Pair, k: BRow -> Program, view: seq<word>, out: seq<word>)
    requires |view| == 65536
    requires Leaves(k(LastBlockOf(hash, num, id, nonce, view)), view, out)
    ensures Leaves(LastThen(hash, num, id, nonce, k), view, out)
  {
    hide Leaves, OddBlock, EvenBlock, CapBlock;
    if num != MESSAGE_CAP && hash % 2 != 0 {
      var at := 8 * (NUM_HASHES - 1);
      assert view[at..at + 8] == view[at..] && view[at..at + 0] == [];
      Load8Leaves(at, [], (last: DRow) => k(OddBlock(last, id, nonce)), view, out);
    }
  }

  lemma LastBlockIsLast(hash: nat, id: Pair, nonce: Pair, view: seq<word>)
    requires |view| == 65536 && hash <= NUM_HASHES
    ensures var t := view[8 * hash..] + (id + nonce);
            IsLastBlock(Message(t, hash), Blocks(hash), LastBlockOf(hash, Blocks(hash), id, nonce, view))
  {
    hide Message, Blocks;
    var t := view[8 * hash..] + (id + nonce);
    var num := Blocks(hash);
    MessageRest(t, hash, num);
    var m := LastBlockOf(hash, num, id, nonce, view);
    if num == MESSAGE_CAP {
    } else if hash % 2 == 0 {
      assert t[16 * num..] == id + nonce;
    } else {
      assert t[16 * num..] == view[8 * (NUM_HASHES - 1)..] + id + nonce;
    }
  }

  /** A view grown from hash h on, and a view that is complete and masked. */
  ghost predicate ViewGrown(view: seq<word>, h: nat, seed: seq<word>) {
    |view| == 65536 && h <= NUM_HASHES && view[8 * h..] + seed == WordChain(seed, NUM_HASHES - h)
  }

  ghost predicate ViewReached(view: seq<word>, end: int, seed: seq<word>) {
    if end == -1 then |view| == 65536 && forall k | 0 <= k < 65536 :: view[k] == MaskedWord(seed, k)
    else end >= 0 && ViewGrown(view, end, seed)
  }

  /** A work item run alone takes a view grown from its start to one that has reached its end. */
  lemma {:induction false} ItemLeaves(hash: int, end: int, d: DRow, id: Pair, nonce: Pair, view: seq<word>)
    returns (out: seq<word>)
    requires -1 <= end <= hash <= NUM_HASHES
    requires ViewGrown(view, if hash == -1 then 0 else hash, id + nonce)
    requires hash == -1 ==> d == FinalWords(id + nonce)
    ensures Leaves(Item(hash, end, d, id, nonce), view, out)
    ensures ViewReached(out, end, id + nonce)
    decreases hash - end
  {
    hide Leaves, WordChain, WordDigest, FinalWords, Message, Absorb, Initial, Finish, Xor, LastBlockOf, IsLastBlock;
    var seed := id + nonce;
    if hash == end {
      if end == -1 {
        out := seq(65536, k requires 0 <= k < 65536 => Xor(view[k], d[k % 8]));
        XorFromLeaves(0, d, view, out);
        assert view + seed == WordChain(seed, NUM_HASHES);
      } else {
        out := view;
        LeavesDone(view);
      }
    } else {
      var t := view[8 * hash..] + seed;
      var num := Blocks(hash);
      var m := LastBlockOf(hash, num, id, nonce, view);
      LastBlockIsLast(hash, id, nonce, view);
      DigestByBlocks(t, hash, num, m);
      DigestOfTail(t, hash, seed);
      AbsorbNone(t);
      out := AfterDigestLeaves(hash, end, Finish(Absorb(t, num), m), id, nonce, view);
      var rest := (m: BRow) => AfterDigest(hash, end, Finish(Absorb(t, num), m), id, nonce);
      LastThenLeaves(hash, num, id, nonce, rest, view, out);
      ReadFromLeaves(hash, 0, num, Initial(), (s: State) =>
        LastThen(hash, Blocks(hash), id, nonce, (m: BRow) => AfterDigest(hash, end, Finish(s, m), id, nonce)),
        view, seed, out);
    }
  }

  lemma {:induction false} AfterDigestLeaves(hash: int, end: int, d: DRow, id: Pair, nonce: Pair, view: seq<word>)
    returns (out: seq<word>)
    requires -1 <= end < hash <= NUM_HASHES && hash >= 0
    requires ViewGrown(view, hash, id + nonce)
    requires hash == 0 ==> d == FinalWords(id + nonce)
    requires hash > 0 ==> d + (view[8 * hash..] + (id + nonce)) == WordChain(id + nonce, NUM_HASHES - hash + 1)
    ensures Leaves(AfterDigest(hash, end, d, id, nonce), view, out)
    ensures ViewReached(out, end, id + nonce)
    decreases hash - end, 0
  {
    assert |view| == 65536;
    hide Leaves, WordChain, FinalWords, ViewReached, Item, ViewGrown, StoreFrom;
    if hash == 0 {
      out := ItemLeaves(-1, end, d, id, nonce, view);
    } else {
      var at := 8 * (hash - 1);
      var after := view[..at] + d + view[at + 8..];
      GrownAfterStore(hash, d, id + nonce, view);
      out := ItemLeaves(hash - 1, end, d, id, nonce, after);
      StoredLeaves(at, d, Item(hash - 1, end, d, id, nonce), view, out);
    }
  }

  lemma StoredLeaves(at: nat, d: DRow, next: Program, view: seq<word>, out: seq<word>)
    requires at + 8 <= 65536 && |view| == 65536
    requires Leaves(next, view[..at] + d + view[at + 8..], out)
    ensures Leaves(StoreFrom(at, d, 0, next), view, out)
  {
    hide Leaves, StoreFrom;
    assert view[..at + 0] + d[0..] + view[at + 8..] == view[..at] + d + view[at + 8..];
    StoreFromLeaves(at, d, 0, next, view, out);
  }

  lemma GrownAfterStore(hash: nat, d: DRow, seed: seq<word>, view: seq<word>)
    requires 0 < hash && ViewGrown(view, hash, seed)
    requires |view| == 65536 && hash <= NUM_HASHES
    requires d + (view[8 * hash..] + seed) == WordChain(seed, NUM_HASHES - hash + 1)
    ensures ViewGrown(view[..8 * (hash - 1)] + d + view[8 * hash..], hash - 1, seed)
  {
    hide WordChain;
    var after := view[..8 * (hash - 1)] + d + view[8 * hash..];
    assert after[8 * (hash - 1)..] + seed == d + (view[8 * hash..] + seed);
  }

  // ---- a launch of all work items ---------------------------------------------------------------

  /** The registers before the first digest, whose contents are unspecified. */
  function NoDigest(): DRow {
    [0, 0, 0, 0, 0, 0, 0, 0]
  }

  /** Work item g of a launch; items past the number of nonces return at once. */
  function ItemOf(plotIdBe: bv64, startNonce: bv64, start: int, end: int, nonces: nat, g: nat): Program
    requires -1 <= end < start <= NUM_HASHES
  {
    if g >= nonces then Done
    else
      var nonce := EndianSwap64(NonceAt(startNonce, g));
      Item(start, end, NoDigest(), WordsOf(Bytes64(plotIdBe)), WordsOf(Bytes64(nonce)))
  }

  function LaunchPool(flat: seq<word>, plotIdBe: bv64, startNonce: bv64, start: int, end: int, nonces: nat,
                      gws: nat): Pool
    requires -1 <= end < start <= NUM_HASHES
  {
    Pool(seq(gws, g requires 0 <= g < gws => ItemOf(plotIdBe, startNonce, start, end, nonces, g)), flat)
  }

  lemma GrownView(flat: seq<word>, g: nat, h: nat, seed: seq<word>)
    requires Fits(|flat|, g) && h <= NUM_HASHES
    ensures Grown(flat, g, h, seed) <==> ViewGrown(ViewOf(flat, g), h, seed)
  {
    hide ViewOf, WordChain;
  }

  /** What item g leaves when it runs alone on the buffer that the launch starts from. */
  lemma ItemOutcome(flat: seq<word>, plotIdBe: bv64, startNonce: bv64, start: int, end: int, nonces: nat, g: nat)
    returns (out: seq<word>)
    requires -1 <= end < start <= NUM_HASHES && Fits(|flat|, g)
    requires g < nonces ==> Grown(flat, g, start, ItemSeed(plotIdBe, startNonce, g))
    ensures Leaves(ItemOf(plotIdBe, startNonce, start, end, nonces, g), ViewOf(flat, g), out)
    ensures g < nonces ==> ViewReached(out, end, ItemSeed(plotIdBe, startNonce, g))
    ensures g >= nonces ==> out == ViewOf(flat, g)
  {
    hide ViewOf, Grown, ViewGrown, ViewReached, WordsOf, Bytes64, EndianSwap64, NonceAt, Leaves, Item;
    if g >= nonces {
      out := ViewOf(flat, g);
      LeavesDone(out);
    } else {
      GrownView(flat, g, start, ItemSeed(plotIdBe, startNonce, g));
      out := ItemLeaves(start, end, NoDigest(), WordsOf(Bytes64(plotIdBe)),
                        WordsOf(Bytes64(EndianSwap64(NonceAt(startNonce, g)))), ViewOf(flat, g));
    }
  }

  lemma {:induction false} LaunchOutcomes(flat: seq<word>, plotIdBe: bv64, startNonce: bv64, start: int, end: int,
                                          nonces: nat, n: nat)
    returns (outs: seq<seq<word>>)
    requires -1 <= end < start <= NUM_HASHES
    requires forall g | 0 <= g < n :: Fits(|flat|, g)
    requires forall g | 0 <= g < n && g < nonces :: Grown(flat, g, start, ItemSeed(plotIdBe, startNonce, g))
    ensures |outs| == n
    ensures forall g | 0 <= g < n ::
      && Leaves(ItemOf(plotIdBe, startNonce, start, end, nonces, g), ViewOf(flat, g), outs[g])
      && (g < nonces ==> ViewReached(outs[g], end, ItemSeed(plotIdBe, startNonce, g)))
      && (g >= nonces ==> outs[g] == ViewOf(flat, g))
  {
    hide ViewOf, Grown, ViewReached, Leaves, ItemOf, ItemSeed, Fits;
    if n == 0 {
      outs := [];
    } else {
      outs := LaunchOutcomes(flat, plotIdBe, startNonce, start, end, nonces, n - 1);
      var out := ItemOutcome(flat, plotIdBe, startNonce, start, end, nonces, n - 1);
      outs := outs + [out];
    }
  }

  /**
   * Every interleaving of the loads and stores of a launch in which all work items finish does what
   * the work items do one after the other: each nonce reaches the end of the launch, and the words
   * of the nonces that were not asked for are untouched.
   */
  lemma AnyInterleavingOfALaunch(flat: seq<word>, plotIdBe: bv64, startNonce: bv64, start: int, end: int,
                                 nonces: nat, groups: nat, schedule: seq<nat>)
    requires -1 <= end < start <= NUM_HASHES
    requires |flat| == groups * 1048576 && nonces <= 16 * groups
    requires forall g | 0 <= g < nonces ::
      Fits(|flat|, g) && Grown(flat, g, start, ItemSeed(plotIdBe, startNonce, g))
    requires forall i | 0 <= i < |schedule| :: schedule[i] < 16 * groups
    requires var pool := LaunchPool(flat, plotIdBe, startNonce, start, end, nonces, 16 * groups);
             && ValidPool(pool)
             && forall g | 0 <= g < 16 * groups :: Interleave(pool, schedule).items[g].Done?
    ensures var pool := LaunchPool(flat, plotIdBe, startNonce, start, end, nonces, 16 * groups);
            var now := Interleave(pool, schedule).flat;
            && (forall g | 0 <= g < nonces :: Reached(now, g, end, ItemSeed(plotIdBe, startNonce, g)))
            && (forall at | 0 <= at < |flat| && OwnerOf(at) >= nonces :: now[at] == flat[at])
  {
    hide ViewOf, Grown, ViewReached, Leaves, ItemOf, ItemSeed, Interleave, OwnerOf, HashAt, WordAt, Address,
         MaskedWord, Finished, Fits;
    var pool := LaunchPool(flat, plotIdBe, startNonce, start, end, nonces, 16 * groups);
    var outs := LaunchOutcomes(flat, plotIdBe, startNonce, start, end, nonces, 16 * groups);
    ScheduleIndependence(pool, schedule, outs);
    var now := Interleave(pool, schedule).flat;
    forall g | 0 <= g < nonces ensures Reached(now, g, end, ItemSeed(plotIdBe, startNonce, g)) {
      ReachedView(now, g, end, ItemSeed(plotIdBe, startNonce, g));
    }
    SameViewsSameWords(flat, now, groups, nonces);
  }

  /** There is such an interleaving: the work items one after the other. */
  lemma LaunchCanFinish(flat: seq<word>, plotIdBe: bv64, startNonce: bv64, start: int, end: int,
                        nonces: nat, groups: nat)
    returns (schedule: seq<nat>)
    requires -1 <= end < start <= NUM_HASHES
    requires nonces <= 16 * groups && forall g | 0 <= g < 16 * groups :: Fits(|flat|, g)
    requires forall g | 0 <= g < nonces :: Grown(flat, g, start, ItemSeed(plotIdBe, startNonce, g))
    ensures forall i | 0 <= i < |schedule| :: schedule[i] < 16 * groups
    ensures var pool := LaunchPool(flat, plotIdBe, startNonce, start, end, nonces, 16 * groups);
            && ValidPool(pool)
            && forall g | 0 <= g < 16 * groups :: Interleave(pool, schedule).items[g].Done?
  {
    hide ViewOf, Grown, ViewReached, Leaves, ItemOf, ItemSeed, Interleave;
    var pool := LaunchPool(flat, plotIdBe, startNonce, start, end, nonces, 16 * groups);
    var outs := LaunchOutcomes(flat, plotIdBe, startNonce, start, end, nonces, 16 * groups);
    schedule := InTurn(pool, outs, 16 * groups);
  }

  lemma SameViewsSameWords(flat: seq<word>, now: seq<word>, groups: nat, nonces: nat)
    requires |flat| == |now| == groups * 1048576
    requires forall g | nonces <= g < 16 * groups :: Fits(|flat|, g) && ViewOf(now, g) == ViewOf(flat, g)
    ensures forall at | 0 <= at < |flat| && OwnerOf(at) >= nonces :: now[at] == flat[at]
  {
    hide ViewOf, OwnerOf, HashAt, WordAt, Address, Fits;
    forall at | 0 <= at < |flat| && OwnerOf(at) >= nonces ensures now[at] == flat[at] {
      AddressCovers(groups, at);
      ViewAt(now, OwnerOf(at), HashAt(at), WordAt(at));
      ViewAt(flat, OwnerOf(at), HashAt(at), WordAt(at));
    }
  }

  lemma ReachedView(flat: seq<word>, g: nat, end: int, seed: seq<word>)
    requires Fits(|flat|, g) && -1 <= end <= NUM_HASHES && ViewReached(ViewOf(flat, g), end, seed)
    ensures Reached(flat, g, end, seed)
  {
    hide ViewOf, WordChain, MaskedWord;
  }
}
