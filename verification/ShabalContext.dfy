/** The streaming hash: a context that takes its message in pieces of any length. */
module ShabalContext {
  import opened Words
  import opened Shabal
  import opened ShabalRounds

  lemma AbsorbPartial(msg: seq<byte>, more: seq<byte>, n: nat)
    requires 64 * n <= |msg|
    ensures Absorb(WordsOf(msg + more), n) == Absorb(WordsOf(msg), n)
  {
    hide Absorb, WordsOf;
    AbsorbHead(msg, n);
    AbsorbHead(msg + more, n);
    assert (msg + more)[..64 * n] == msg[..64 * n];
  }

  lemma AbsorbBlock(msg: seq<byte>, more: seq<byte>, n: nat)
    requires 64 * n <= |msg|
    requires |msg| + |more| == 64 * n + 64
    ensures Absorb(WordsOf(msg + more), n + 1)
         == Compress(Absorb(WordsOf(msg), n), WordsOf((msg + more)[64 * n..]))
  {
    hide Compress, WordsOf;
    var all := msg + more;
    AbsorbPartial(msg, more, n);
    WordsOfSlice(all, 16 * n, 16 * n + 16);
    assert all[64 * n..64 * n + 64] == all[64 * n..];
  }

  class Context {
    const buf: array<byte>
    var ptr: nat
    var a: ARow
    var b: BRow
    var c: BRow
    var wlow: word
    var whigh: word
    ghost var absorbed: seq<byte>
    ghost var blocks: nat

    function St(): State
      reads this
    {
      State(a, b, c, wlow, whigh)
    }

    /** The state has absorbed every full block, and the buffer holds the bytes left over. */
    ghost predicate Valid()
      reads this, buf
    {
      && buf.Length == 64
      && ptr < 64
      && |absorbed| == 64 * blocks + ptr
      && buf[..ptr] == absorbed[64 * blocks..]
      && St() == Absorb(WordsOf(absorbed), blocks)
    }

    constructor ()
      ensures Valid() && fresh(buf) && absorbed == []
    {
      hide AInit, BInit, CInit, Absorb;
      buf := new byte[64](_ => 0);
      ptr := 0;
      a, b, c, wlow, whigh := AInit(), BInit(), CInit(), 1, 0;
      absorbed, blocks := [], 0;
      new;
      AbsorbNone(WordsOf([]));
    }

    /** shabal_init for 256 bits: the initial values, and nothing absorbed. */
    method Init()
      requires buf.Length == 64
      modifies this
      ensures Valid() && absorbed == [] && St() == Initial() && ptr == 0
    {
      hide AInit, BInit, CInit, Absorb;
      AbsorbNone(WordsOf([]));
      a, b, c, wlow, whigh := AInit(), BInit(), CInit(), 1, 0;
      ptr := 0;
      absorbed, blocks := [], 0;
    }

    /** memcpy of n bytes of data, from the given offset, to position p of the buffer. */
    method Fill(p: nat, data: array<byte>, from: nat, n: nat, ghost msg: seq<byte>)
      requires buf.Length == 64 && data != buf
      requires p + n <= 64 && from + n <= data.Length
      requires p <= |msg| && buf[..p] == msg[|msg| - p..]
      modifies buf
      ensures var all := msg + data[from..from + n];
              buf[..p + n] == all[|all| - (p + n)..]
    {
      forall i | 0 <= i < n {
        buf[p + i] := data[from + i];
      }
      assert buf[..p + n] == old(buf[..p]) + data[from..from + n];
    }

    /** The working copy: n full blocks of msg are in s, and p bytes more are in the buffer. */
    ghost predicate Holds(s: State, p: nat, n: nat, msg: seq<byte>)
      reads buf
    {
      && buf.Length == 64
      && p < 64
      && |msg| == 64 * n + p
      && buf[..p] == msg[64 * n..]
      && s == Absorb(WordsOf(msg), n)
    }

    /** One pass of the loop: clen bytes into the buffer, and a round when that fills it. */
    method Feed(s0: State, p0: nat, data: array<byte>, from: nat, clen: nat, ghost n0: nat, ghost msg: seq<byte>)
      returns (s: State, p: nat, ghost n: nat)
      requires data != buf && from + clen <= data.Length
      requires Holds(s0, p0, n0, msg) && p0 + clen <= 64
      modifies buf
      ensures p < 64 && Holds(s, p, n, msg + data[from..from + clen])
    {
      hide Absorb, WordsOf, Compress;
      ghost var more := data[from..from + clen];
      Fill(p0, data, from, clen, msg);
      s, p, n := s0, p0 + clen, n0;
      if p == 64 {
        AbsorbBlock(msg, more, n);
        assert buf[..] == buf[..64] == (msg + more)[64 * n..];
        s := MessageRound(s, WordsOf(buf[..]));
        p, n := 0, n + 1;
      } else {
        AbsorbPartial(msg, more, n);
      }
    }

    /** The loop of shabal_core, on the working copy. */
    method FeedAll(s0: State, p0: nat, data: array<byte>, off: nat, len: nat, ghost n0: nat, ghost msg: seq<byte>)
      returns (s: State, p: nat, ghost n: nat)
      requires data != buf && off + len <= data.Length
      requires p0 < 64 && Holds(s0, p0, n0, msg)
      modifies buf
      ensures Holds(s, p, n, msg + data[off..off + len])
    {
      hide Holds;
      s, p, n := s0, p0, n0;
      var k: nat := 0;
      assert msg + data[off..off + 0] == msg;
      while k < len
        invariant k <= len
        invariant p < 64 && Holds(s, p, n, msg + data[off..off + k])
      {
        var clen := if 64 - p > len - k then len - k else 64 - p;
        ghost var sofar := msg + data[off..off + k];
        s, p, n := Feed(s, p, data, off + k, clen, n, sofar);
        JoinSlices(data, off, off + k, off + (k + clen));
        Associate(msg, data[off..off + k], data[off + k..off + k + clen]);
        k := k + clen;
      }
    }

    /** shabal_core: absorbs len bytes of data starting at off. */
    method Update(data: array<byte>, off: nat, len: nat)
      requires Valid() && data != buf
      requires off + len <= data.Length
      modifies this, buf
      ensures Valid()
      ensures absorbed == old(absorbed) + data[off..off + len]
    {
      hide Absorb, WordsOf;
      ghost var more := data[off..off + len];
      if len < 64 - ptr {
        Fill(ptr, data, off, len, absorbed);
        AbsorbPartial(absorbed, more, blocks);
        ptr := ptr + len;
      } else {
        var s, p, n := FeedAll(St(), ptr, data, off, len, blocks, absorbed);
        a, b, c, wlow, whigh := s.a, s.b, s.c, s.wlow, s.whigh;
        ptr, blocks := p, n;
      }
      absorbed := absorbed + more;
    }

    /** shabal_close: pads, runs the closing rounds, writes 32 bytes, and starts afresh. */
    method Close(dst: array<byte>, at: nat)
      requires Valid() && dst != buf
      requires at + 32 <= dst.Length
      modifies this, buf, dst
      ensures Valid() && absorbed == [] && St() == Initial() && ptr == 0
      ensures dst[at..at + 32] == Shabal256(old(absorbed))
      ensures dst[..at] == old(dst[..at]) && dst[at + 32..] == old(dst[at + 32..])
    {
      hide Absorb, WordsOf, Finish, BytesOf, Shabal256;
      buf[ptr] := 0x80;
      forall i | ptr < i < 64 {
        buf[i] := 0;
      }
      Shabal256ByTail(absorbed, blocks, buf[..]);
      var s := ClosingRounds(State(a, b, c, wlow, whigh), WordsOf(buf[..]));
      var out := BytesOf(s.b[8..]);
      forall i | 0 <= i < 32 {
        dst[at + i] := out[i];
      }
      assert dst[at..at + 32] == out;
      Init();
    }
  }

  lemma JoinSlices(a: array<byte>, lo: nat, mid: nat, hi: nat)
    requires lo <= mid <= hi <= a.Length
    ensures a[lo..mid] + a[mid..hi] == a[lo..hi]
  {
  }

  lemma Associate(x: seq<byte>, y: seq<byte>, z: seq<byte>)
    ensures (x + y) + z == x + (y + z)
  {
  }
}
