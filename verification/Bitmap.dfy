/** The free bitmap: one bit per disk block, in consecutive bitmap blocks of BPB bits. */
module Bitmap {

  const BPB: nat := 4096
  const BBYTES: nat := 512

  type Bits = seq<seq<bv8>>

  // The bitmap block, the byte in it and the bit in the byte that stand for block `b`.
  function BlockIx(b: nat): nat { b / BPB }
  function ByteIx(b: nat): (i: nat) ensures i < BBYTES { (b % BPB) / 8 }
  function BitIx(b: nat): (k: nat) ensures k < 8 { b % BPB % 8 }

  lemma SameBit(b: nat, c: nat)
    requires BlockIx(c) == BlockIx(b) && ByteIx(c) == ByteIx(b) && BitIx(c) == BitIx(b)
    ensures b == c
  {
  }

  function Mask(k: nat): bv8
    requires k < 8
  {
    if k == 0 then 1 else if k == 1 then 2 else if k == 2 then 4 else if k == 3 then 8
    else if k == 4 then 16 else if k == 5 then 32 else if k == 6 then 64 else 128
  }

  predicate Has(x: bv8, k: nat)
    requires k < 8
  {
    x & Mask(k) != 0
  }

  function With(x: bv8, k: nat): bv8
    requires k < 8
  {
    x | Mask(k)
  }

  function Without(x: bv8, k: nat): bv8
    requires k < 8
  {
    x & !Mask(k)
  }

  lemma WithHas(x: bv8, k: nat, j: nat)
    requires k < 8 && j < 8
    ensures Has(With(x, k), j) <==> j == k || Has(x, j)
    ensures Has(Without(x, k), j) <==> j != k && Has(x, j)
  {
  }

  /** Enough bitmap blocks for `size` disk blocks. */
  ghost predicate Covers(bits: Bits, size: nat) {
    && (forall b: nat | b < size :: BlockIx(b) < |bits|)
    && (forall k | 0 <= k < |bits| :: |bits[k]| == BBYTES)
  }

  function Byte(bits: Bits, b: nat): bv8
    requires BlockIx(b) < |bits| && |bits[BlockIx(b)]| == BBYTES
  {
    bits[BlockIx(b)][ByteIx(b)]
  }

  ghost predicate InUse(bits: Bits, b: nat) {
    BlockIx(b) < |bits| && |bits[BlockIx(b)]| == BBYTES && Has(Byte(bits, b), BitIx(b))
  }

  ghost function UsedSet(bits: Bits, size: nat): set<nat> {
    set b: nat | b < size && InUse(bits, b)
  }

  /** The map with one byte replaced. */
  function Poke(bits: Bits, b: nat, x: bv8): Bits
    requires BlockIx(b) < |bits| && |bits[BlockIx(b)]| == BBYTES
  {
    bits[BlockIx(b) := bits[BlockIx(b)][ByteIx(b) := x]]
  }

  lemma PokeByte(bits: Bits, b: nat, x: bv8, c: nat, size: nat)
    requires Covers(bits, size) && b < size && c < size
    ensures Covers(Poke(bits, b, x), size)
    ensures Byte(Poke(bits, b, x), c) ==
            if BlockIx(c) == BlockIx(b) && ByteIx(c) == ByteIx(b) then x else Byte(bits, c)
  {
  }

  lemma SetBit(bits: Bits, b: nat, size: nat)
    requires Covers(bits, size) && b < size
    ensures var bits' := Poke(bits, b, With(Byte(bits, b), BitIx(b)));
            Covers(bits', size) && UsedSet(bits', size) == UsedSet(bits, size) + {b}
  {
    hide Has, With, Without, Poke, BlockIx, ByteIx, BitIx, Byte;
    var x := With(Byte(bits, b), BitIx(b));
    var bits' := Poke(bits, b, x);
    PokeByte(bits, b, x, b, size);
    forall c: nat | c < size
      ensures InUse(bits', c) <==> c == b || InUse(bits, c)
    {
      PokeByte(bits, b, x, c, size);
      if BlockIx(c) == BlockIx(b) && ByteIx(c) == ByteIx(b) {
        assert Byte(bits, c) == Byte(bits, b) by { ByteAt(bits, b, c); }
        WithHas(Byte(bits, b), BitIx(b), BitIx(c));
        if BitIx(c) == BitIx(b) { SameBit(b, c); }
      }
    }
  }

  lemma ByteAt(bits: Bits, b: nat, c: nat)
    requires BlockIx(b) < |bits| && |bits[BlockIx(b)]| == BBYTES
    requires BlockIx(c) == BlockIx(b) && ByteIx(c) == ByteIx(b)
    ensures Byte(bits, c) == Byte(bits, b)
  {
  }

  lemma ClearBit(bits: Bits, b: nat, size: nat)
    requires Covers(bits, size) && b < size
    ensures var bits' := Poke(bits, b, Without(Byte(bits, b), BitIx(b)));
            Covers(bits', size) && UsedSet(bits', size) == UsedSet(bits, size) - {b}
  {
    hide Has, With, Without, Poke, BlockIx, ByteIx, BitIx, Byte;
    var x := Without(Byte(bits, b), BitIx(b));
    var bits' := Poke(bits, b, x);
    PokeByte(bits, b, x, b, size);
    forall c: nat | c < size
      ensures InUse(bits', c) <==> c != b && InUse(bits, c)
    {
      PokeByte(bits, b, x, c, size);
      if BlockIx(c) == BlockIx(b) && ByteIx(c) == ByteIx(b) {
        ByteAt(bits, b, c);
        WithHas(Byte(bits, b), BitIx(b), BitIx(c));
        if BitIx(c) == BitIx(b) { SameBit(b, c); }
      }
    }
  }
}
