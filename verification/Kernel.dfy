/**
 * The OpenCL kernel: each work item grows the hash chain of one nonce inside the shared,
 * interleaved buffer, and the launch that reaches the end masks the nonce with its final hash.
 */
module Kernel {
  import opened Words
  import opened Shabal
  import opened ShabalRounds
  import opened Layout
  import opened WordPlot
  import opened CpuPlotter

  const MESSAGE_CAP := 64

  /** The view of a nonce from hash h on, followed by the seed. */
  ghost function Tail(flat: seq<word>, gid: nat, h: nat, seed: seq<word>): (t: seq<word>)
    requires Fits(|flat|, gid) && h <= NUM_HASHES
    ensures |t| == 8 * (NUM_HASHES - h) + |seed|
  {
    ViewOf(flat, gid)[8 * h..] + seed
  }

  /** Nothing that belongs to another nonce has changed. */
  ghost predicate OthersKept(was: seq<word>, now: seq<word>, gid: nat) {
    |now| == |was| && forall at | 0 <= at < |was| && OwnerOf(at) != gid :: now[at] == was[at]
  }

  /** Eight loads: the words of one hash. */
  method LoadHash(buf: array<word>, gid: nat, h: nat) returns (m: seq<word>)
    requires Fits(buf.Length, gid) && h < NUM_HASHES
    ensures m == ViewOf(buf[..], gid)[8 * h..8 * h + 8]
  {
    hide Address, Address32, ViewOf, OwnerOf, HashAt, WordAt;
    LoadBounds(buf.Length, gid, h);
    m := [buf[Address32(gid, h, 0)], buf[Address32(gid, h, 1)], buf[Address32(gid, h, 2)], buf[Address32(gid, h, 3)],
          buf[Address32(gid, h, 4)], buf[Address32(gid, h, 5)], buf[Address32(gid, h, 6)], buf[Address32(gid, h, 7)]];
    forall w | 0 <= w < 8 ensures m[w] == ViewOf(buf[..], gid)[8 * h + w] {
      ViewAt(buf[..], gid, h, w);
    }
  }

  lemma LoadBounds(length: nat, gid: nat, h: nat)
    requires Fits(length, gid) && h < NUM_HASHES
    ensures forall w | 0 <= w < 8 :: Address32(gid, h, w) == Address(gid, h, w) < length
  {
    forall w | 0 <= w < 8 ensures Address32(gid, h, w) == Address(gid, h, w) < length {
      AddressDecodes(length, gid, h, w);
      SmallAddress(gid, h, w);
    }
  }

  /** One store, and what it does to the view of its nonce and to the others. */
  method StoreWord(buf: array<word>, gid: nat, h: nat, w: nat, v: word)
    requires Fits(buf.Length, gid) && h < NUM_HASHES && w < 8
    modifies buf
    ensures ViewOf(buf[..], gid) == ViewOf(old(buf[..]), gid)[8 * h + w := v]
    ensures OthersKept(old(buf[..]), buf[..], gid)
  {
    hide Address, Address32, ViewOf, HashAt, WordAt, OwnerOf;
    AddressDecodes(buf.Length, gid, h, w);
    SmallAddress(gid, h, w);
    ViewUpdate(buf[..], gid, h, w, v, gid);
    ghost var was := buf[..];
    buf[Address32(gid, h, w)] := v;
    assert buf[..] == was[Address(gid, h, w) := v];
  }

  /** The eight stores of one hash. */
  method StoreHash(buf: array<word>, gid: nat, h: nat, d: seq<word>)
    requires Fits(buf.Length, gid) && h < NUM_HASHES && |d| == 8
    modifies buf
    ensures ViewOf(buf[..], gid)[8 * h..] == d + old(ViewOf(buf[..], gid))[8 * h + 8..]
    ensures OthersKept(old(buf[..]), buf[..], gid)
  {
    hide ViewOf, OwnerOf, Address;
    StoreWord(buf, gid, h, 0, d[0]);
    StoreWord(buf, gid, h, 1, d[1]);
    StoreWord(buf, gid, h, 2, d[2]);
    StoreWord(buf, gid, h, 3, d[3]);
    StoreWord(buf, gid, h, 4, d[4]);
    StoreWord(buf, gid, h, 5, d[5]);
    StoreWord(buf, gid, h, 6, d[6]);
    StoreWord(buf, gid, h, 7, d[7]);
  }

  /** Eight read-modify-writes: one hash masked with the final hash. */
  method XorHash(buf: array<word>, gid: nat, h: nat, d: seq<word>)
    requires Fits(buf.Length, gid) && h < NUM_HASHES && |d| == 8
    modifies buf
    ensures forall k | 0 <= k < 65536 ::
      ViewOf(buf[..], gid)[k] == var v := old(ViewOf(buf[..], gid))[k];
                                 if 8 * h <= k < 8 * h + 8 then Xor(v, d[k - 8 * h]) else v
    ensures OthersKept(old(buf[..]), buf[..], gid)
  {
    hide Xor, ViewOf, OwnerOf, Address, Address32;
    ghost var was := ViewOf(buf[..], gid);
    ghost var flat := buf[..];
    for w := 0 to 8
      invariant Fits(buf.Length, gid)
      invariant OthersKept(flat, buf[..], gid)
      invariant forall k | 0 <= k < 65536 ::
        ViewOf(buf[..], gid)[k] == if 8 * h <= k < 8 * h + w then Xor(was[k], d[k - 8 * h]) else was[k]
    {
      LoadBounds(buf.Length, gid, h);
      ViewAt(buf[..], gid, h, w);
      StoreWord(buf, gid, h, w, Xor(buf[Address32(gid, h, w)], d[w]));
    }
  }

  /** The number of full message blocks that the kernel reads for a hash. */
  function Blocks(hash: nat): (num: nat)
    requires hash <= NUM_HASHES
  {
    var num := (NUM_HASHES - hash) / 2;
    if hash != 0 && num > MESSAGE_CAP then MESSAGE_CAP else num
  }

  /** What the kernel hashes: the tail, capped for every hash but the last. */
  ghost function Message(t: seq<word>, hash: nat): seq<word> {
    if hash != 0 then CappedWords(t) else t
  }

  /** The kernel's own table of initial values, and its counter. */
  function DeviceInitial(): State {
    State([0x52F84552, 0xE54B7999, 0x2D8EE3EC, 0xB9645191, 0xE0078B86, 0xBB7C44C9, 0xD2B5C1CA, 0xB0D2EB8C, 0x14CE5A45,
           0x22AF50DC, 0xEFFDBC6B, 0xEB21B74A],
          [0xB555C6EE, 0x3E710596, 0xA72A652F, 0x9301515F, 0xDA28C1FA, 0x696FD868, 0x9CB6BF72, 0x0AFE4002, 0xA6E03615,
           0x5138C1D4, 0xBE216306, 0xB38B8890, 0x3EA8B96B, 0x3299ACE4, 0x30924DD4, 0x55CB34A5],
          [0xB405F031, 0xC4233EBA, 0xB3733979, 0xC0DD9D55, 0xC51C28AE, 0xA327B8E1, 0x56C56167, 0xED614433, 0x88B59D60,
           0x60E2CEBA, 0x758B4B8B, 0x83E82A7F, 0xBC968828, 0xE6E00BF7, 0xBA839E55, 0x9B491C60],
          1, 0)
  }

  /** Both programs start from the same values. */
  lemma DeviceStartsLikeHost()
    ensures DeviceInitial() == Initial()
  {
  }

  /** The full blocks of the tail. */
  method ReadBlocks(buf: array<word>, gid: nat, hash: nat, num: nat, ghost seed: seq<word>) returns (s: State)
    requires Fits(buf.Length, gid) && hash <= NUM_HASHES && hash + 2 * num <= NUM_HASHES
    ensures 16 * num <= |Tail(buf[..], gid, hash, seed)|
    ensures s == Absorb(Tail(buf[..], gid, hash, seed), num)
  {
    hide Compress, ViewOf, Initial, DeviceInitial;
    s := DeviceInitial();
    DeviceStartsLikeHost();
    ghost var t := Tail(buf[..], gid, hash, seed);
    AbsorbNone(t);
    ghost var n: nat := 0;
    var i: nat := 0;
    while i < 2 * num
      invariant i == 2 * n && n <= num
      invariant s == Absorb(t, n)
    {
      var lower := LoadHash(buf, gid, hash + i);
      var upper := LoadHash(buf, gid, hash + i + 1);
      TwoHashes(ViewOf(buf[..], gid), seed, hash, n);
      s := MessageRound(s, lower + upper);
      AbsorbMore(t, n);
      i, n := i + 2, n + 1;
    }
  }

  /** Two neighbouring hashes of the view are one block of the tail. */
  lemma TwoHashes(view: seq<word>, seed: seq<word>, hash: nat, n: nat)
    requires |view| == 65536 && hash + 2 * n + 2 <= NUM_HASHES
    ensures var i := hash + 2 * n;
            view[8 * i..8 * i + 8] + view[8 * (i + 1)..8 * (i + 1) + 8]
            == (view[8 * hash..] + seed)[16 * n..16 * n + 16]
  {
  }

  lemma AbsorbMore(t: seq<word>, n: nat)
    requires 16 * n + 16 <= |t|
    ensures Absorb(t, n + 1) == Compress(Absorb(t, n), t[16 * n..16 * n + 16])
  {
    hide Compress;
  }

  /** m is what is left of the message after num blocks, padded to a block. */
  ghost predicate IsLastBlock(msg: seq<word>, num: nat, m: BRow) {
    && 16 * num <= |msg| < 16 * num + 16
    && m[..|msg| - 16 * num] == msg[16 * num..]
    && m[|msg| - 16 * num] == 0x80
    && forall i | |msg| - 16 * num < i < 16 :: m[i] == 0
  }

  /** The padded last block, by the three cases of the kernel. */
  method LastBlock(buf: array<word>, gid: nat, hash: nat, num: nat, idBe: seq<word>, nonceBe: seq<word>)
    returns (m: BRow)
    requires Fits(buf.Length, gid) && hash <= NUM_HASHES && num == Blocks(hash)
    requires |idBe| == 2 && |nonceBe| == 2
    ensures IsLastBlock(Message(Tail(buf[..], gid, hash, idBe + nonceBe), hash), num, m)
  {
    hide ViewOf, Message;
    ghost var t := Tail(buf[..], gid, hash, idBe + nonceBe);
    ghost var msg := Message(t, hash);
    MessageRest(t, hash, num);
    if num == MESSAGE_CAP {
      m := [0x80, 0, 0, 0, 0, 0, 0, 0, 0, 0, 0, 0, 0, 0, 0, 0];
    } else if hash % 2 == 0 {
      m := [idBe[0], idBe[1], nonceBe[0], nonceBe[1], 0x80, 0, 0, 0, 0, 0, 0, 0, 0, 0, 0, 0];
      assert msg[16 * num..] == idBe + nonceBe;
    } else {
      var last := LoadHash(buf, gid, NUM_HASHES - 1);
      m := [last[0], last[1], last[2], last[3], last[4], last[5], last[6], last[7],
            idBe[0], idBe[1], nonceBe[0], nonceBe[1], 0x80, 0, 0, 0];
      assert msg[16 * num..] == last + idBe + nonceBe;
    }
  }

  /** The padded block and the kernel's own loop of closing rounds; the digest is B8 to BF. */
  method LastRounds(s0: State, m: BRow) returns (d: seq<word>)
    ensures d == Finish(s0, m)
  {
    hide Inject, Blank;
    var s := InputBlock(s0, m);
    ghost var t := s;
    for i := 0 to 3
      invariant s == Blanks(i, t, m)
    {
      s := BlankRound(s, m);
    }
    d := [s.b[8], s.b[9], s.b[10], s.b[11], s.b[12], s.b[13], s.b[14], s.b[15]];
    assert d == s.b[8..];
  }

  /** One pass of the hash loop, up to the registers that hold the digest. */
  method HashTail(buf: array<word>, gid: nat, hash: nat, idBe: seq<word>, nonceBe: seq<word>)
    returns (d: seq<word>)
    requires Fits(buf.Length, gid) && hash <= NUM_HASHES
    requires |idBe| == 2 && |nonceBe| == 2
    ensures |d| == 8 && d == WordDigest(Message(Tail(buf[..], gid, hash, idBe + nonceBe), hash))
  {
    hide Absorb, Finish, WordDigest, ViewOf, Message, Tail;
    ghost var seed := idBe + nonceBe;
    var num := (NUM_HASHES - hash) / 2;
    if hash != 0 {
      num := if num > MESSAGE_CAP then MESSAGE_CAP else num;
    }
    var s := ReadBlocks(buf, gid, hash, num, seed);
    var m := LastBlock(buf, gid, hash, num, idBe, nonceBe);
    d := LastRounds(s, m);
    DigestByBlocks(Tail(buf[..], gid, hash, seed), hash, num, m);
  }

  /** Full blocks, a padded last block and the closing rounds make the digest of the message. */
  lemma DigestByBlocks(t: seq<word>, hash: nat, num: nat, m: BRow)
    requires hash <= NUM_HASHES && num == Blocks(hash) && |t| == 8 * (NUM_HASHES - hash) + 4
    requires IsLastBlock(Message(t, hash), num, m)
    ensures 16 * num <= |t| && Finish(Absorb(t, num), m) == WordDigest(Message(t, hash))
  {
    hide Absorb, Finish, WordDigest, Message;
    MessagePrefix(t, hash, num);
    AbsorbPrefix(t, Message(t, hash), num);
    WordDigestByTail(Message(t, hash), num, m);
  }

  lemma MessagePrefix(t: seq<word>, hash: nat, num: nat)
    requires hash <= NUM_HASHES && num == Blocks(hash) && |t| == 8 * (NUM_HASHES - hash) + 4
    ensures 16 * num <= |t| && 16 * num <= |Message(t, hash)|
    ensures Message(t, hash)[..16 * num] == t[..16 * num]
  {
  }

  /** The three shapes of what is left after the full blocks: nothing, a seed, a hash and a seed. */
  lemma MessageRest(t: seq<word>, hash: nat, num: nat)
    requires hash <= NUM_HASHES && num == Blocks(hash) && |t| == 8 * (NUM_HASHES - hash) + 4
    ensures num == MESSAGE_CAP ==> |Message(t, hash)| == 16 * num
    ensures num != MESSAGE_CAP ==> Message(t, hash) == t
    ensures num != MESSAGE_CAP && hash % 2 == 0 ==> |t| == 16 * num + 4
    ensures num != MESSAGE_CAP && hash % 2 == 1 ==> |t| == 16 * num + 12
  {
  }

  /** The seed of work item gid, as the kernel forms it. */
  function ItemSeed(plotIdBe: bv64, startNonce: bv64, gid: nat): (s: seq<word>)
    ensures |s| == 4
  {
    SeedWords(plotIdBe, EndianSwap64(NonceAt(startNonce, gid)))
  }

  /** From hash h on, the view of the nonce holds the chain. */
  ghost predicate Grown(flat: seq<word>, gid: nat, h: nat, seed: seq<word>) {
    && Fits(|flat|, gid)
    && h <= NUM_HASHES
    && Tail(flat, gid, h, seed) == WordChain(seed, NUM_HASHES - h)
  }

  /** The whole chain of the nonce is there and has been masked. */
  ghost predicate Finished(flat: seq<word>, gid: nat, seed: seq<word>) {
    && Fits(|flat|, gid)
    && forall k | 0 <= k < 65536 :: ViewOf(flat, gid)[k] == MaskedWord(seed, k)
  }

  /** After plot: the chain of the nonce is complete, and masked if the step was a good one. */
  ghost predicate Plotted(flat: seq<word>, g: nat, seed: seq<word>, masked: bool) {
    if masked then Finished(flat, g, seed) else Grown(flat, g, 0, seed)
  }

  /** What a launch over hashes start, ..., end + 1 leaves of a nonce; only end -1 masks it. */
  ghost predicate Reached(flat: seq<word>, gid: nat, end: int, seed: seq<word>)
    requires end <= NUM_HASHES
  {
    if end == -1 then Finished(flat, gid, seed) else Grown(flat, gid, if end < 0 then 0 else end, seed)
  }

  /**
   * One work item of one launch. Passes for negative hashes, which occur when no launch ends at -1,
   * read outside the nonce; what they compute is neither stored nor used for the mask.
   */
  method WorkItem(buf: array<word>, startNonce: bv64, plotIdBe: bv64, start: int, end: int, nonces: nat, gid: nat)
    requires 0 < start <= NUM_HASHES && end < start
    requires gid < nonces ==> Fits(buf.Length, gid) && Grown(buf[..], gid, start, ItemSeed(plotIdBe, startNonce, gid))
    modifies buf
    ensures gid < nonces ==> Reached(buf[..], gid, end, ItemSeed(plotIdBe, startNonce, gid))
    ensures gid >= nonces ==> buf[..] == old(buf[..])
    ensures OthersKept(old(buf[..]), buf[..], gid)
  {
    hide Grown, Finished, WordDigest, WordsOf, Bytes64, EndianSwap64, NonceAt, OwnerOf, Message, WordChain, FinalWords;
    if gid >= nonces {
      return;
    }
    var nonceBe := EndianSwap64(NonceAt(startNonce, gid));
    var idWords, nonceWords := WordsOf(Bytes64(plotIdBe)), WordsOf(Bytes64(nonceBe));
    ghost var seed := idWords + nonceWords;
    var d: seq<word> := [];
    var hash := start;
    while hash > end
      invariant end <= hash <= start
      invariant hash == -1 ==> |d| == 8 && d == FinalWords(seed)
      invariant Grown(buf[..], gid, if hash < 0 then 0 else hash, seed)
      invariant OthersKept(old(buf[..]), buf[..], gid)
    {
      if hash >= 0 {
        d := HashTail(buf, gid, hash, idWords, nonceWords);
        GrownTail(buf[..], gid, hash, seed);
        DigestOfTail(Tail(buf[..], gid, hash, seed), hash, seed);
      } else {
        d := *;
      }
      if hash > 0 {
        ghost var was := buf[..];
        StoreHash(buf, gid, hash - 1, d);
        GrownByOne(was, buf[..], gid, hash, seed, d);
      }
      hash := hash - 1;
    }
    if end == -1 {
      MaskNonce(buf, gid, d, seed);
    }
  }

  /** What the kernel hashes is what the chain hashes next. */
  lemma DigestOfTail(t: seq<word>, hash: nat, seed: seq<word>)
    requires hash <= NUM_HASHES && t == WordChain(seed, NUM_HASHES - hash)
    ensures hash == 0 ==> WordDigest(Message(t, hash)) == FinalWords(seed)
    ensures hash > 0 ==> WordDigest(Message(t, hash)) + t == WordChain(seed, NUM_HASHES - hash + 1)
  {
    hide WordDigest, CappedWords, WordChain;
    if hash == 0 {
      FinalWordsIs(seed);
    } else {
      WordChainStep(seed, NUM_HASHES - hash);
    }
  }

  lemma GrownTail(flat: seq<word>, gid: nat, h: nat, seed: seq<word>)
    requires Grown(flat, gid, h, seed)
    ensures Fits(|flat|, gid) && h <= NUM_HASHES
    ensures Tail(flat, gid, h, seed) == WordChain(seed, NUM_HASHES - h)
  {
  }

  lemma GrownByOne(was: seq<word>, now: seq<word>, gid: nat, hash: nat, seed: seq<word>, d: seq<word>)
    requires Grown(was, gid, hash, seed) && 0 < hash && Fits(|now|, gid) && |d| == 8
    requires d + Tail(was, gid, hash, seed) == WordChain(seed, NUM_HASHES - hash + 1)
    requires ViewOf(now, gid)[8 * (hash - 1)..] == d + ViewOf(was, gid)[8 * (hash - 1) + 8..]
    ensures Grown(now, gid, hash - 1, seed)
  {
    hide ViewOf, WordChain;
    assert Tail(now, gid, hash - 1, seed) == d + Tail(was, gid, hash, seed);
  }

  /** The final loop: every hash of the nonce, masked with the last digest. */
  method MaskNonce(buf: array<word>, gid: nat, d: seq<word>, ghost seed: seq<word>)
    requires Fits(buf.Length, gid) && Grown(buf[..], gid, 0, seed) && |d| == 8 && d == FinalWords(seed)
    modifies buf
    ensures Finished(buf[..], gid, seed)
    ensures OthersKept(old(buf[..]), buf[..], gid)
  {
    hide ViewOf, OwnerOf, WordChain, FinalWords, Xor;
    ghost var flat := buf[..];
    ghost var was := ViewOf(flat, gid);
    for i := 0 to NUM_HASHES
      invariant Fits(buf.Length, gid)
      invariant OthersKept(flat, buf[..], gid)
      invariant forall k | 0 <= k < 65536 ::
        ViewOf(buf[..], gid)[k] == if k < 8 * i then Xor(was[k], d[k % 8]) else was[k]
    {
      XorHash(buf, gid, i, d);
    }
    assert was + seed == WordChain(seed, NUM_HASHES);
  }
}
