/** Plot files: where scoops go, and the file and the stop flag as the threads see them. */
module PlotFile {
  import opened Words
  import opened Transposition

  // ---- slots ---------------------------------------------------------------------------

  const SCOOP_BYTES := 64

  /** The offset of scoop s of nonce k in a file of size nonces. */
  function SlotAt(size: nat, s: nat, k: nat): nat {
    (s * size + k) * SCOOP_BYTES
  }

  ghost predicate SlotHolds(bytes: seq<byte>, size: nat, s: nat, k: nat, row: seq<byte>) {
    var at := SlotAt(size, s, k);
    at + SCOOP_BYTES <= |bytes| && bytes[at..at + SCOOP_BYTES] == row
  }

  /** A slot that was there still is, with the same bytes. */
  ghost predicate SameSlot(was: seq<byte>, now: seq<byte>, size: nat, s: nat, k: nat) {
    var at := SlotAt(size, s, k);
    at + SCOOP_BYTES <= |was| ==> at + SCOOP_BYTES <= |now| && now[at..at + SCOOP_BYTES] == was[at..at + SCOOP_BYTES]
  }

  /** Distinct slots of the same file do not overlap. */
  lemma SlotsApart(size: nat, s: nat, k: nat, s2: nat, k2: nat)
    requires k < size && k2 < size && (s != s2 || k != k2)
    ensures SlotAt(size, s, k) + SCOOP_BYTES <= SlotAt(size, s2, k2)
         || SlotAt(size, s2, k2) + SCOOP_BYTES <= SlotAt(size, s, k)
  {
    if s < s2 {
      RowsApart(size, s, s2);
    } else if s2 < s {
      RowsApart(size, s2, s);
    }
  }

  lemma {:induction false} RowsApart(size: nat, s: nat, s2: nat)
    requires s < s2
    ensures s * size + size <= s2 * size
  {
    OneRowOn(size, s2 - 1);
    if s + 1 < s2 {
      RowsApart(size, s, s2 - 1);
    }
  }

  lemma OneRowOn(size: nat, s: nat)
    ensures (s + 1) * size == s * size + size
  {
  }

  /** The slots of the 4096 scoops of a file tile [0, size * 262144): every offset is in exactly one. */
  lemma SlotsTile(size: nat, offset: nat) returns (s: nat, k: nat)
    requires offset < size * 262144
    ensures s < SCOOPS_PER_PLOT && k < size
    ensures SlotAt(size, s, k) <= offset < SlotAt(size, s, k) + SCOOP_BYTES
  {
    var q := offset / SCOOP_BYTES;
    assert q < size * 4096;
    s, k := q / size, q % size;
    assert q == s * size + k;
  }

  function Longer(x: nat, y: nat): nat {
    if x < y then y else x
  }

  /** Nothing outside [at, at + len) has changed, though the file may have grown up to there. */
  ghost predicate Within(was: seq<byte>, now: seq<byte>, at: nat, len: nat) {
    && |was| <= |now| <= Longer(|was|, at + len)
    && forall i | 0 <= i < |was| && !(at <= i < at + len) :: now[i] == was[i]
  }

  /** data has been written at the given offset; a gap past the old end may hold anything. */
  ghost predicate Wrote(was: seq<byte>, now: seq<byte>, at: nat, data: seq<byte>) {
    && Within(was, now, at, |data|)
    && at + |data| <= |now|
    && now[at..at + |data|] == data
  }

  /** Changes within a run of slots of one scoop keep every other slot. */
  lemma OtherSlotsKept(was: seq<byte>, now: seq<byte>, size: nat, s: nat, k: nat, m: nat, s2: nat, k2: nat)
    requires k + m <= size && k2 < size && (s != s2 || k2 < k || k2 >= k + m)
    requires Within(was, now, SlotAt(size, s, k), SCOOP_BYTES * m)
    ensures SameSlot(was, now, size, s2, k2)
  {
    var at := SlotAt(size, s2, k2);
    if m > 0 {
      SlotsApart(size, s, k, s2, k2);
      SlotsApart(size, s, k + m - 1, s2, k2);
      if s < s2 {
        RowsApart(size, s, s2);
      } else if s2 < s {
        RowsApart(size, s2, s);
      }
      assert at + SCOOP_BYTES <= SlotAt(size, s, k) || SlotAt(size, s, k) + SCOOP_BYTES * m <= at;
    }
  }

  // ---- the file and the stop signal ----------------------------------------------------

  /**
   * A file on disk. Opening, seeking, reading and writing may fail at any time, and a failed write may
   * be partial. failed counts the operations that did.
   */
  class File {
    var bytes: seq<byte>
    var pos: nat
    var isOpen: bool
    ghost var failed: nat

    constructor ()
      ensures !isOpen && failed == 0
    {
      isOpen := false;
      failed := 0;
    }

    method Close()
      modifies this
      ensures !isOpen && bytes == old(bytes) && failed == old(failed)
    {
      isOpen := false;
    }

    /** Opening and preallocating: either may fail, and new space may hold anything. */
    method Open(wanted: nat)
      modifies this
      ensures old(bytes) <= bytes && |bytes| <= Longer(|old(bytes)|, wanted)
      ensures failed == old(failed) + if isOpen then 0 else 1
    {
      isOpen := *;
      failed := failed + if isOpen then 0 else 1;
      var extended: bool := *;
      if isOpen && extended && |bytes| < wanted {
        var more: seq<byte> := *;
        if |bytes| + |more| <= wanted {
          bytes := bytes + more;
        }
      }
    }

    method Seek(offset: nat) returns (ok: bool)
      modifies this
      ensures bytes == old(bytes) && isOpen == old(isOpen)
      ensures ok ==> isOpen && pos == offset
      ensures failed == old(failed) + if ok then 0 else 1
    {
      ok := *;
      ok := ok && isOpen;
      if ok {
        pos := offset;
      } else {
        failed := failed + 1;
      }
    }

    method Read(len: nat) returns (ok: bool, data: seq<byte>)
      modifies this
      ensures bytes == old(bytes) && isOpen == old(isOpen)
      ensures ok ==> old(pos) + len <= |bytes| && data == bytes[old(pos)..old(pos) + len]
      ensures failed == old(failed) + if ok then 0 else 1
    {
      ok := *;
      ok := ok && isOpen && pos + len <= |bytes|;
      if ok {
        data := bytes[pos..pos + len];
        pos := pos + len;
      } else {
        data := *;
        failed := failed + 1;
      }
    }

    method Write(data: seq<byte>) returns (ok: bool)
      modifies this
      ensures isOpen == old(isOpen)
      ensures ok ==> Wrote(old(bytes), bytes, old(pos), data) && pos == old(pos) + |data|
      ensures !ok ==> Within(old(bytes), bytes, old(pos), |data|)
      ensures failed == old(failed) + if ok then 0 else 1
    {
      ok := *;
      if !isOpen {
        ok := false;
      }
      failed := failed + if ok then 0 else 1;
      if !isOpen {
        return;
      }
      var n: nat := |data|;
      if !ok {
        n := *;
        if n > |data| {
          n := 0;
        }
      }
      var gap: seq<byte> := *;
      var missing := if pos > |bytes| then pos - |bytes| else 0;
      if |gap| != missing {
        gap := seq(missing, _ => 0);
      }
      ghost var was := bytes;
      bytes := Splice(bytes + gap, pos, data[..n]);
      SpliceIs(was, gap, pos, data[..n]);
      pos := pos + n;
    }
  }

  function Splice(b: seq<byte>, at: nat, data: seq<byte>): (r: seq<byte>)
    requires at <= |b|
  {
    if at + |data| <= |b| then b[..at] + data + b[at + |data|..] else b[..at] + data
  }

  lemma SpliceIs(was: seq<byte>, gap: seq<byte>, at: nat, data: seq<byte>)
    requires |was| + |gap| == Longer(|was|, at)
    ensures Wrote(was, Splice(was + gap, at, data), at, data)
  {
    var now := Splice(was + gap, at, data);
    assert now[at..at + |data|] == data;
  }

  /** The process-wide stop flag: it may be raised at any time and is never lowered. */
  class StopSignal {
    var raised: bool

    method Stopped() returns (b: bool)
      modifies this
      ensures old(raised) ==> raised
      ensures b == raised
    {
      if * {
        raised := true;
      }
      b := raised;
    }
  }
}
