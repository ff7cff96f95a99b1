/** The gear rolling hash and the cut masks (src/chunker/gear.rs, src/constants.rs). */
module Gear {
  import opened Bytes

  const MIN_BYTES: nat := 16 * 1024
  const TARGET_BYTES: nat := 64 * 1024
  const MAX_BYTES: nat := 256 * 1024

  const GENERIC_STRICT: bv64 := 0x3_FFFF
  const GENERIC_RELAXED: bv64 := 0x3FFF
  const TEXT_STRICT: bv64 := 0xFFC0_0000_0000_0000
  const TEXT_RELAXED: bv64 := 0xFFE0_0000_0000_0000

  /** A gear table: any 256 words (the seed only picks which). */
  type Table = t: seq<bv64> | |t| == 256 witness seq(256, _ => 0)

  /** One byte rolled in; the 64-bit word drops its top bit and wraps. */
  function Roll(t: Table, h: bv64, b: Byte): bv64 {
    (h << 1) + t[b]
  }

  /** The hash after rolling the bytes of `s` into a word `h`. */
  function FoldFrom(t: Table, h: bv64, s: seq<Byte>): bv64 {
    if s == [] then h else Roll(t, FoldFrom(t, h, s[..|s| - 1]), s[|s| - 1])
  }

  /** The hash of a chunk's bytes, started from the reset word. */
  function Hash(t: Table, s: seq<Byte>): bv64 {
    FoldFrom(t, 0, s)
  }

  predicate Cuts(h: bv64, mask: bv64) {
    h & mask == 0
  }

  class GearHash {
    const table: Table
    var hash: bv64

    constructor (table: Table)
      ensures this.table == table && hash == Hash(table, [])
    {
      this.table := table;
      hash := 0;
    }

    method Update(b: Byte)
      modifies this
      ensures hash == Roll(table, old(hash), b)
    {
      hash := (hash << 1) + table[b];
    }

    method Reset()
      modifies this
      ensures hash == 0 == Hash(table, [])
    {
      hash := 0;
    }

    /** Roll in a run of bytes, one at a time. */
    method UpdateAll(bytes: seq<Byte>)
      modifies this
      ensures hash == FoldFrom(table, old(hash), bytes)
    {
      for i := 0 to |bytes|
        invariant hash == FoldFrom(table, old(hash), bytes[..i])
      {
        assert bytes[..i + 1][..i] == bytes[..i];
        Update(bytes[i]);
      }
      assert bytes[..|bytes|] == bytes;
    }
  }

  lemma {:induction false} FoldAppend(t: Table, h: bv64, x: seq<Byte>, y: seq<Byte>)
    ensures FoldFrom(t, h, x + y) == FoldFrom(t, FoldFrom(t, h, x), y)
  {
    if y == [] {
      assert x + y == x;
    } else {
      assert (x + y)[..|x + y| - 1] == x + y[..|y| - 1];
      FoldAppend(t, h, x, y[..|y| - 1]);
    }
  }

  lemma HashPush(t: Table, s: seq<Byte>, b: Byte)
    ensures Hash(t, s + [b]) == Roll(t, Hash(t, s), b)
  {
    assert (s + [b])[..|s|] == s;
  }

  /** The mask of the `k` lowest bits. */
  function LowMask(k: nat): bv64 {
    if k == 0 then 0 else (LowMask(k - 1) << 1) | 1
  }

  ghost predicate Agree(a: bv64, b: bv64, mask: bv64) {
    (a - b) & mask == 0
  }

  lemma AgreeShift(a: bv64, b: bv64, e: bv64, mask: bv64)
    requires Agree(a, b, mask)
    ensures Agree((a << 1) + e, (b << 1) + e, (mask << 1) | 1)
  {
  }

  /** Two words whose lowest `k` bits agree (as a difference, modulo 2^64). */
  ghost predicate AgreeLow(a: bv64, b: bv64, k: nat) {
    Agree(a, b, LowMask(k))
  }

  lemma AgreeNone(a: bv64, b: bv64)
    ensures AgreeLow(a, b, 0)
  {
  }

  lemma AgreeRoll(t: Table, a: bv64, b: bv64, e: Byte, k: nat)
    requires AgreeLow(a, b, k)
    ensures AgreeLow(Roll(t, a, e), Roll(t, b, e), k + 1)
  {
    AgreeShift(a, b, t[e], LowMask(k));
  }

  /** Bytes forget: after `k` common bytes the lowest `k` bits no longer depend on the start. */
  lemma {:induction false} FoldForgets(t: Table, a: bv64, b: bv64, s: seq<Byte>, k: nat)
    requires k <= |s|
    ensures AgreeLow(FoldFrom(t, a, s), FoldFrom(t, b, s), k)
  {
    if k == 0 {
      AgreeNone(FoldFrom(t, a, s), FoldFrom(t, b, s));
    } else {
      var front := s[..|s| - 1];
      FoldForgets(t, a, b, front, k - 1);
      AgreeRoll(t, FoldFrom(t, a, front), FoldFrom(t, b, front), s[|s| - 1], k - 1);
    }
  }

  lemma LowMaskFour(k: nat)
    ensures LowMask(k + 4) == (LowMask(k) << 4) | 0xF
  {
    assert LowMask(k + 2) == (LowMask(k) << 2) | 3;
  }

  lemma GenericMasksAreLow()
    ensures LowMask(18) == GENERIC_STRICT && LowMask(14) == GENERIC_RELAXED
  {
    assert LowMask(4) == 0xF;
    assert LowMask(8) == 0xFF;
    assert LowMask(12) == 0xFFF;
    assert LowMask(16) == 0xFFFF;
  }

  lemma WordMaskIsLow()
    ensures LowMask(64) == 0xFFFF_FFFF_FFFF_FFFF
  {
    GenericMasksAreLow();
    LowMaskFour(18);
    LowMaskFour(22);
    assert LowMask(28) == 0xFFF_FFFF;
    LowMaskFour(28);
    LowMaskFour(32);
    LowMaskFour(36);
    LowMaskFour(40);
    LowMaskFour(44);
    LowMaskFour(48);
    LowMaskFour(52);
    LowMaskFour(56);
    LowMaskFour(60);
  }

  lemma AgreeCuts(a: bv64, b: bv64, mask: bv64)
    requires mask == GENERIC_STRICT || mask == GENERIC_RELAXED
    requires Agree(a, b, mask)
    ensures Cuts(a, mask) <==> Cuts(b, mask)
  {
  }

  lemma AgreeEqual(a: bv64, b: bv64)
    requires Agree(a, b, 0xFFFF_FFFF_FFFF_FFFF)
    ensures a == b
  {
  }

  /** A strict verdict depends only on the last 18 bytes, whatever precedes them. */
  lemma StrictWindow(t: Table, x: seq<Byte>, y: seq<Byte>, s: seq<Byte>)
    requires 18 <= |s|
    ensures Cuts(Hash(t, x + s), GENERIC_STRICT) <==> Cuts(Hash(t, y + s), GENERIC_STRICT)
  {
    FoldAppend(t, 0, x, s);
    FoldAppend(t, 0, y, s);
    FoldForgets(t, Hash(t, x), Hash(t, y), s, 18);
    GenericMasksAreLow();
    AgreeCuts(Hash(t, x + s), Hash(t, y + s), GENERIC_STRICT);
  }

  /** A relaxed verdict depends only on the last 14 bytes. */
  lemma RelaxedWindow(t: Table, x: seq<Byte>, y: seq<Byte>, s: seq<Byte>)
    requires 14 <= |s|
    ensures Cuts(Hash(t, x + s), GENERIC_RELAXED) <==> Cuts(Hash(t, y + s), GENERIC_RELAXED)
  {
    FoldAppend(t, 0, x, s);
    FoldAppend(t, 0, y, s);
    FoldForgets(t, Hash(t, x), Hash(t, y), s, 14);
    GenericMasksAreLow();
    AgreeCuts(Hash(t, x + s), Hash(t, y + s), GENERIC_RELAXED);
  }

  /** The whole word depends only on the last 64 bytes. */
  lemma WordWindow(t: Table, x: seq<Byte>, y: seq<Byte>, s: seq<Byte>)
    requires 64 <= |s|
    ensures Hash(t, x + s) == Hash(t, y + s)
  {
    FoldAppend(t, 0, x, s);
    FoldAppend(t, 0, y, s);
    FoldForgets(t, Hash(t, x), Hash(t, y), s, 64);
    WordMaskIsLow();
    AgreeEqual(Hash(t, x + s), Hash(t, y + s));
  }

  /** Under the generic masks a strict hit is also a relaxed hit. */
  lemma StrictImpliesRelaxed(h: bv64)
    requires Cuts(h, GENERIC_STRICT)
    ensures Cuts(h, GENERIC_RELAXED)
  {
  }

  /**
   * Not so for text: its relaxed mask has eleven bits, the ten of its strict mask and bit 53. A strict hit is a relaxed
   * hit exactly when that bit of the hash is clear too, which some strict hit's is not.
   */
  lemma TextStrictIsRelaxedExactly(h: bv64)
    ensures Cuts(h, TEXT_RELAXED) <==> Cuts(h, TEXT_STRICT) && h & 0x0020_0000_0000_0000 == 0
    ensures Cuts(0x0020_0000_0000_0000, TEXT_STRICT) && !Cuts(0x0020_0000_0000_0000, TEXT_RELAXED)
  {
  }
}
