/** The outcomes that hashing and writing hope for do exist, whatever was there before. */
module Possible {
  import opened Words
  import opened Layout
  import opened WordPlot
  import opened Kernel
  import opened Transposition
  import opened PlotFile
  import opened Hasher
  import opened WriterWorker

  /** What a finished buffer holds at an address. */
  function FinishedWord(plotId: bv64, start: bv64, at: nat): word {
    AddressCovers(at / 1048576 + 1, at);
    MaskedWord(ItemSeed(HtonUll(plotId), start, OwnerOf(at)), 8 * HashAt(at) + WordAt(at))
  }

  /** A block of any whole number of sixteens can hold the plots it should. */
  lemma BlockCanHold(plotId: bv64, start: bv64, groups: nat, n: nat) returns (data: seq<word>)
    requires n <= 16 * groups && n <= ADDRESSABLE
    ensures |data| == 16 * groups * NONCE_SIZE_WORDS && BlockHolds(data, plotId, start, n)
  {
    hide MaskedWord, ItemSeed, HtonUll, Address, OwnerOf, HashAt, WordAt;
    data := seq(16 * groups * NONCE_SIZE_WORDS, at requires 0 <= at => FinishedWord(plotId, start, at));
    forall k | 0 <= k < n ensures Finished(data, k, ItemSeed(HtonUll(plotId), start, k)) {
      assert Fits(|data|, k);
      forall i | 0 <= i < 65536
        ensures ViewOf(data, k)[i] == MaskedWord(ItemSeed(HtonUll(plotId), start, k), i)
      {
        ViewAt(data, k, i / 8, i % 8);
        AddressDecodes(|data|, k, i / 8, i % 8);
      }
    }
  }

  /** What a completed write of nonces off, ..., off + n - 1 leaves at a byte of the file. */
  function WrittenByte(was: seq<byte>, size: nat, off: nat, n: nat, flat: seq<word>, i: nat): byte
    requires BlockFits(|flat|, n)
  {
    var q := i / 64;
    if size > 0 && q / size < SCOOPS_PER_PLOT && off <= q % size < off + n then
      SlotRow(flat, q / size, q % size - off)[i % 64]
    else if i < |was| then was[i]
    else 0
  }

  /** A write can succeed, whatever the file holds. */
  lemma WriteCanSucceed(was: seq<byte>, size: nat, off: nat, n: nat, flat: seq<word>) returns (now: seq<byte>)
    requires off + n <= size && BlockFits(|flat|, n)
    ensures Attempted(was, now, size, off, n, flat, true)
  {
    hide SlotRow, Fits, SlotAt;
    var length := if |was| < size * 262144 then size * 262144 else |was|;
    now := seq(length, i requires 0 <= i => WrittenByte(was, size, off, n, flat, i));
    forall s, k | 0 <= s < SCOOPS_PER_PLOT && 0 <= k < size && !(off <= k < off + n)
      ensures SameSlot(was, now, size, s, k)
    {
      SlotWithout(was, now, size, off, n, flat, s, k);
    }
    assert OthersIntact(was, now, size, off, n);
    forall s, k | 0 <= s < SCOOPS_PER_PLOT && off <= k < off + n ensures SlotDone(now, size, s, k, flat, off) {
      SlotWith(was, now, size, off, n, flat, s, k);
    }
    assert RegionWritten(now, size, off, n, flat);
  }

  /** The byte positions of a slot lead back to the slot. */
  lemma SlotDecodes(size: nat, s: nat, k: nat, b: nat)
    requires k < size && b < 64
    ensures (SlotAt(size, s, k) + b) / 64 / size == s
    ensures (SlotAt(size, s, k) + b) / 64 % size == k
    ensures (SlotAt(size, s, k) + b) % 64 == b
  {
    assert (SlotAt(size, s, k) + b) / 64 == s * size + k;
    QuotientOf(s * size + k, size, s, k);
  }

  lemma QuotientOf(a: nat, size: nat, s: nat, k: nat)
    requires k < size && a == s * size + k
    ensures a / size == s && a % size == k
  {
    var d, r := a / size, a % size;
    assert a == d * size + r;
    assert (d - s) * size == k - r;
    if d - s >= 1 {
      AtLeast(d - s, 1, size);
    } else if d - s <= -1 {
      AtLeast(s - d, 1, size);
    }
  }

  lemma SlotInFile(size: nat, s: nat, k: nat)
    requires s < SCOOPS_PER_PLOT && k < size
    ensures SlotAt(size, s, k) + 64 <= size * 262144
  {
    RowsApart(size, s, SCOOPS_PER_PLOT);
  }

  lemma SlotWithout(was: seq<byte>, now: seq<byte>, size: nat, off: nat, n: nat, flat: seq<word>, s: nat, k: nat)
    requires BlockFits(|flat|, n) && s < SCOOPS_PER_PLOT && k < size && !(off <= k < off + n)
    requires |was| <= |now| && forall i | 0 <= i < |now| :: now[i] == WrittenByte(was, size, off, n, flat, i)
    ensures SameSlot(was, now, size, s, k)
  {
    hide SlotRow, BlockFits, SlotAt;
    var at := SlotAt(size, s, k);
    if at + 64 <= |was| {
      var part, before := now[at..at + 64], was[at..at + 64];
      forall b | 0 <= b < 64 ensures part[b] == before[b] {
        SlotDecodes(size, s, k, b);
        assert now[at + b] == WrittenByte(was, size, off, n, flat, at + b);
      }
      assert part == before;
    }
  }

  lemma SlotWith(was: seq<byte>, now: seq<byte>, size: nat, off: nat, n: nat, flat: seq<word>, s: nat, k: nat)
    requires BlockFits(|flat|, n) && s < SCOOPS_PER_PLOT && off <= k < off + n <= size
    requires |now| >= size * 262144 && forall i | 0 <= i < |now| :: now[i] == WrittenByte(was, size, off, n, flat, i)
    ensures SlotDone(now, size, s, k, flat, off)
  {
    assert Fits(|flat|, k - off);
    hide SlotRow, BlockFits, Fits, SlotAt;
    var at := SlotAt(size, s, k);
    SlotInFile(size, s, k);
    var part, row := now[at..at + 64], SlotRow(flat, s, k - off);
    forall b | 0 <= b < 64 ensures part[b] == row[b] {
      SlotDecodes(size, s, k, b);
      assert now[at + b] == WrittenByte(was, size, off, n, flat, at + b);
    }
    assert part == row;
  }
}
