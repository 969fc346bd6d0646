/** How the device buffer interleaves the words of sixteen nonces at a time. */
module Layout {
  import opened Words

  const NONCE_SIZE_WORDS := 65536

  /** How many nonces can be addressed with signed 32-bit indices. */
  const ADDRESSABLE := 32768

  /** The macro Address(nonce, hash, word), over unbounded integers. */
  function Address(nonce: nat, hash: nat, word: nat): nat {
    nonce / 16 * 16 * NONCE_SIZE_WORDS + hash * 128 + word * 16 + nonce % 16
  }

  /** The same macro as both programs evaluate it, in signed 32-bit integers. */
  function Address32(nonce: nat, hash: nat, word: nat): int {
    Int32(Address(nonce, hash, word))
  }

  /** The nonce, hash and word that live at an address. */
  function OwnerOf(at: nat): nat {
    at / 1048576 * 16 + at % 16
  }

  function HashAt(at: nat): nat {
    at % 1048576 / 128
  }

  function WordAt(at: nat): nat {
    at % 128 / 16
  }

  /** The buffer has room for the group of sixteen of the nonce, and the nonce can be addressed. */
  predicate Fits(length: nat, nonce: nat) {
    nonce < ADDRESSABLE && (nonce / 16 + 1) * 1048576 <= length
  }

  /**
   * Address is a bijection from nonces, hashes and words onto a buffer for a number of nonces
   * that is a multiple of 16: these two lemmas are its two halves.
   */
  lemma AddressDecodes(length: nat, nonce: nat, hash: nat, word: nat)
    requires Fits(length, nonce) && hash < 8192 && word < 8
    ensures Address(nonce, hash, word) < length
    ensures OwnerOf(Address(nonce, hash, word)) == nonce
    ensures HashAt(Address(nonce, hash, word)) == hash
    ensures WordAt(Address(nonce, hash, word)) == word
  {
    AddressParts(nonce / 16, hash, word, nonce % 16);
  }

  lemma AddressCovers(groups: nat, at: nat)
    requires at < groups * 1048576
    ensures OwnerOf(at) < groups * 16 && HashAt(at) < 8192 && WordAt(at) < 8
    ensures Address(OwnerOf(at), HashAt(at), WordAt(at)) == at
  {
    hide OwnerOf, HashAt, WordAt, Address;
    var q, low := at / 1048576, at % 1048576;
    var h, rest := low / 128, low % 128;
    var w, r := rest / 16, rest % 16;
    AddressParts(q, h, w, r);
    assert at == q * 1048576 + h * 128 + w * 16 + r;
  }

  lemma AddressParts(q: nat, h: nat, w: nat, r: nat)
    requires h < 8192 && w < 8 && r < 16
    ensures var at := q * 1048576 + h * 128 + w * 16 + r;
            && OwnerOf(at) == q * 16 + r
            && HashAt(at) == h
            && WordAt(at) == w
            && Address(q * 16 + r, h, w) == at
  {
    var at := q * 1048576 + h * 128 + w * 16 + r;
    Quotient1048576(at, q, h * 128 + w * 16 + r);
    Quotient128(at, q * 8192 + h, w * 16 + r);
    Quotient128(h * 128 + w * 16 + r, h, w * 16 + r);
    Quotient16(at, q * 65536 + h * 8 + w, r);
    Quotient16(w * 16 + r, w, r);
    Quotient16(q * 16 + r, q, r);
  }

  lemma Quotient16(a: nat, q: nat, r: nat)
    requires a == q * 16 + r && r < 16
    ensures a / 16 == q && a % 16 == r
  {
  }

  lemma Quotient128(a: nat, q: nat, r: nat)
    requires a == q * 128 + r && r < 128
    ensures a / 128 == q && a % 128 == r
  {
  }

  lemma Quotient1048576(a: nat, q: nat, r: nat)
    requires a == q * 1048576 + r && r < 1048576
    ensures a / 1048576 == q && a % 1048576 == r
  {
  }

  /** The 32-bit index is the true one for all words of a nonce exactly below nonce 32768. */
  lemma AddressFitsInt32(nonce: nat)
    ensures (forall hash, word | 0 <= hash < 8192 && 0 <= word < 8 ::
               Address32(nonce, hash, word) == Address(nonce, hash, word))
        <==> nonce < ADDRESSABLE
  {
    if nonce >= ADDRESSABLE {
      assert Address(nonce, 0, 0) >= 0x8000_0000;
      assert Address32(nonce, 0, 0) != Address(nonce, 0, 0);
    } else {
      forall hash, word | 0 <= hash < 8192 && 0 <= word < 8
        ensures Address32(nonce, hash, word) == Address(nonce, hash, word)
      {
        SmallAddress(nonce, hash, word);
      }
    }
  }

  lemma SmallAddress(nonce: nat, hash: nat, word: nat)
    requires nonce < ADDRESSABLE && hash < 8192 && word < 8
    ensures Address32(nonce, hash, word) == Address(nonce, hash, word) < 0x8000_0000
  {
    assert nonce / 16 <= 2047;
  }

  /** In a block of 32784 nonces the first word of nonce 32768 is looked for 2^31 words before the block. */
  lemma FirstWrongAddress()
    ensures Address32(ADDRESSABLE, 0, 0) == -0x8000_0000
    ensures Address(ADDRESSABLE, 0, 0) < 32784 * NONCE_SIZE_WORDS
  {
  }

  /** Word k of a nonce's 65536, hash by hash. */
  function ViewWord(flat: seq<word>, nonce: nat, k: nat): word
    requires Fits(|flat|, nonce) && k < NONCE_SIZE_WORDS
  {
    AddressDecodes(|flat|, nonce, k / 8, k % 8);
    flat[Address(nonce, k / 8, k % 8)]
  }

  /** The 65536 words of one nonce, in the order hash by hash. */
  function ViewOf(flat: seq<word>, nonce: nat): (v: seq<word>)
    requires Fits(|flat|, nonce)
    ensures |v| == NONCE_SIZE_WORDS
  {
    seq(NONCE_SIZE_WORDS, k requires 0 <= k < NONCE_SIZE_WORDS => ViewWord(flat, nonce, k))
  }

  lemma ViewAt(flat: seq<word>, nonce: nat, hash: nat, word: nat)
    requires Fits(|flat|, nonce) && hash < 8192 && word < 8
    ensures Address(nonce, hash, word) < |flat|
    ensures ViewOf(flat, nonce)[8 * hash + word] == flat[Address(nonce, hash, word)]
  {
    AddressDecodes(|flat|, nonce, hash, word);
    assert (8 * hash + word) / 8 == hash && (8 * hash + word) % 8 == word;
  }

  /** Writing one word changes that word in its owner's view, and no other view. */
  lemma ViewUpdate(flat: seq<word>, nonce: nat, hash: nat, word: nat, v: word, other: nat)
    requires Fits(|flat|, nonce) && Fits(|flat|, other) && hash < 8192 && word < 8
    ensures Address(nonce, hash, word) < |flat|
    ensures ViewOf(flat[Address(nonce, hash, word) := v], other)
         == if other == nonce then ViewOf(flat, nonce)[8 * hash + word := v] else ViewOf(flat, other)
  {
    hide Address, Fits, ViewWord, OwnerOf, HashAt, WordAt;
    AddressDecodes(|flat|, nonce, hash, word);
    var at := Address(nonce, hash, word);
    var after := ViewOf(flat[at := v], other);
    forall k | 0 <= k < NONCE_SIZE_WORDS
      ensures after[k] == if other == nonce && k == 8 * hash + word then v else ViewOf(flat, other)[k]
    {
      WordUpdate(flat, nonce, hash, word, v, other, k);
    }
  }

  lemma WordUpdate(flat: seq<word>, nonce: nat, hash: nat, word: nat, v: word, other: nat, k: nat)
    requires Fits(|flat|, nonce) && Fits(|flat|, other) && hash < 8192 && word < 8 && k < NONCE_SIZE_WORDS
    ensures Address(nonce, hash, word) < |flat|
    ensures ViewWord(flat[Address(nonce, hash, word) := v], other, k)
         == if other == nonce && k == 8 * hash + word then v else ViewWord(flat, other, k)
  {
    hide Address, OwnerOf, HashAt, WordAt;
    AddressDecodes(|flat|, nonce, hash, word);
    AddressDecodes(|flat|, other, k / 8, k % 8);
    HashOfWord(hash, word, k);
  }

  lemma HashOfWord(hash: nat, word: nat, k: nat)
    requires word < 8
    ensures k == 8 * hash + word <==> k / 8 == hash && k % 8 == word
  {
  }
}
