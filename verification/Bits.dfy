// The free map: one bit per disk block, least significant bit of each byte first.
module Bits {
  import opened Blocks

  const BPB: nat := 4096   // bits per bitmap block

  // x & (1 << k)
  predicate TestBit(x: nat, k: nat) {
    if k == 0 then x % 2 == 1 else TestBit(x / 2, k - 1)
  }

  // x | (1 << k)
  function OrBit(x: nat, k: nat): nat {
    if k == 0 then x - x % 2 + 1 else 2 * OrBit(x / 2, k - 1) + x % 2
  }

  // x & ~(1 << k)
  function ClearBit(x: nat, k: nat): nat {
    if k == 0 then x - x % 2 else 2 * ClearBit(x / 2, k - 1) + x % 2
  }

  function Pow2(k: nat): nat {
    if k == 0 then 1 else 2 * Pow2(k - 1)
  }

  lemma {:induction false} OrBitTest(x: nat, k: nat, j: nat)
    ensures TestBit(OrBit(x, k), j) <==> j == k || TestBit(x, j)
  {
    if k > 0 && j > 0 {
      OrBitTest(x / 2, k - 1, j - 1);
      assert (2 * OrBit(x / 2, k - 1) + x % 2) / 2 == OrBit(x / 2, k - 1);
    }
  }

  lemma {:induction false} ClearBitTest(x: nat, k: nat, j: nat)
    ensures TestBit(ClearBit(x, k), j) <==> j != k && TestBit(x, j)
  {
    if k > 0 && j > 0 {
      ClearBitTest(x / 2, k - 1, j - 1);
      assert (2 * ClearBit(x / 2, k - 1) + x % 2) / 2 == ClearBit(x / 2, k - 1);
    }
  }

  // Setting a clear bit adds its weight; setting or clearing a bit stays below the same power of two.
  lemma {:induction false} BitBounds(x: nat, k: nat, n: nat)
    requires k < n && x < Pow2(n)
    ensures OrBit(x, k) < Pow2(n) && ClearBit(x, k) < Pow2(n)
    ensures OrBit(x, k) == if TestBit(x, k) then x else x + Pow2(k)
    ensures ClearBit(x, k) == if TestBit(x, k) then x - Pow2(k) else x
  {
    assert Pow2(n) == 2 * Pow2(n - 1) && x / 2 < Pow2(n - 1);
    if k > 0 {
      BitBounds(x / 2, k - 1, n - 1);
      assert Pow2(k) == 2 * Pow2(k - 1);
    }
  }

  // Bit bi of a bitmap block.
  predicate GetBit(s: Block, bi: nat)
    requires bi < BPB
  {
    TestBit(s[bi / 8], bi % 8)
  }

  function SetBit(s: Block, bi: nat): (r: Block)
    requires bi < BPB
  {
    ByteBits(s[bi / 8], bi % 8);
    s[bi / 8 := OrBit(s[bi / 8], bi % 8)]
  }

  function DropBit(s: Block, bi: nat): (r: Block)
    requires bi < BPB
  {
    ByteBits(s[bi / 8], bi % 8);
    s[bi / 8 := ClearBit(s[bi / 8], bi % 8)]
  }

  lemma ByteBits(x: Byte, k: nat)
    requires k < 8
    ensures OrBit(x, k) < 256 && ClearBit(x, k) < 256
  {
    assert Pow2(8) == 2 * Pow2(7) && Pow2(7) == 2 * Pow2(6) && Pow2(6) == 2 * Pow2(5)
           && Pow2(5) == 2 * Pow2(4) && Pow2(4) == 2 * Pow2(3) && Pow2(3) == 2 * Pow2(2);
    BitBounds(x, k, 8);
  }

  lemma SetBitGet(s: Block, bi: nat, bj: nat)
    requires bi < BPB && bj < BPB
    ensures GetBit(SetBit(s, bi), bj) <==> bi == bj || GetBit(s, bj)
  {
    OrBitTest(s[bi / 8], bi % 8, bj % 8);
  }

  lemma DropBitGet(s: Block, bi: nat, bj: nat)
    requires bi < BPB && bj < BPB
    ensures GetBit(DropBit(s, bi), bj) <==> bi != bj && GetBit(s, bj)
  {
    ClearBitTest(s[bi / 8], bi % 8, bj % 8);
  }

  // Where the bits are: bit bi is worth 2 to the bi % 8 in byte bi / 8.
  lemma BitWorth(s: Block, bi: nat, j: nat)
    requires bi < BPB && j < BSIZE
    ensures SetBit(s, bi)[j] == if j == bi / 8 && !GetBit(s, bi) then s[j] + Pow2(bi % 8) else s[j]
    ensures DropBit(s, bi)[j] == if j == bi / 8 && GetBit(s, bi) then s[j] - Pow2(bi % 8) else s[j]
  {
    BitBounds(s[bi / 8], bi % 8, 8);
    assert Pow2(8) == 256 by { ByteBits(s[bi / 8], bi % 8); PowEight(); }
  }

  lemma PowEight()
    ensures Pow2(0) == 1 && Pow2(1) == 2 && Pow2(2) == 4 && Pow2(3) == 8
    ensures Pow2(4) == 16 && Pow2(5) == 32 && Pow2(6) == 64 && Pow2(7) == 128 && Pow2(8) == 256
  {
    assert Pow2(8) == 2 * Pow2(7) && Pow2(7) == 2 * Pow2(6) && Pow2(6) == 2 * Pow2(5)
           && Pow2(5) == 2 * Pow2(4) && Pow2(4) == 2 * Pow2(3) && Pow2(3) == 2 * Pow2(2);
  }
}
