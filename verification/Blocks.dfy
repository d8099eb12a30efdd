// Disk blocks as the kernel sees them: 512 bytes, which the code also reads as an
// array of 32-bit little-endian words (log header, indirect blocks, on-disk inodes)
// and as an array of bits (the free map).
module Blocks {
  const BSIZE: nat := 512
  const WORDS: nat := 128
  const TWO32: nat := 0x1_0000_0000

  type Byte = x: int | 0 <= x < 256
  type Word = x: int | 0 <= x < 0x1_0000_0000

  type Block = s: seq<Byte> | |s| == BSIZE witness Zeroes(BSIZE)

  function Zeroes(n: nat): (z: seq<Byte>)
    ensures |z| == n && forall i :: 0 <= i < n ==> z[i] == 0
  {
    if n == 0 then [] else Zeroes(n - 1) + [0]
  }

  function ZeroBlock(): Block { Zeroes(BSIZE) }

  // ---- 32-bit words ----

  function Word4(a: Byte, b: Byte, c: Byte, d: Byte): Word {
    a + 0x100 * b + 0x1_0000 * c + 0x100_0000 * d
  }

  function GetWord(s: Block, i: nat): Word
    requires i < WORDS
  {
    Word4(s[4 * i], s[4 * i + 1], s[4 * i + 2], s[4 * i + 3])
  }

  function SetWord(s: Block, i: nat, w: Word): Block
    requires i < WORDS
  {
    s[4 * i := w % 0x100]
    [4 * i + 1 := w / 0x100 % 0x100]
    [4 * i + 2 := w / 0x1_0000 % 0x100]
    [4 * i + 3 := w / 0x100_0000 % 0x100]
  }

  lemma DivTwice(w: nat, m: nat)
    requires m == 0x100 || m == 0x1_0000
    ensures w / m / 0x100 == w / (m * 0x100)
  {
    var q := w / m / 0x100;
    assert w == m * (w / m) + w % m && w / m == 0x100 * q + w / m % 0x100;
    if m == 0x100 {
      assert w == 0x1_0000 * q + (0x100 * (w / m % 0x100) + w % m);
    } else {
      assert w == 0x100_0000 * q + (0x1_0000 * (w / m % 0x100) + w % m);
    }
  }

  lemma Recombine(w: int, q1: int, q2: int, q3: int, a: int, b: int, c: int)
    requires w == 0x100 * q1 + a && q1 == 0x100 * q2 + b && q2 == 0x100 * q3 + c
    ensures w == a + 0x100 * b + 0x1_0000 * c + 0x100_0000 * q3
  {
  }

  lemma WordBytes(w: Word)
    ensures Word4(w % 0x100, w / 0x100 % 0x100, w / 0x1_0000 % 0x100, w / 0x100_0000 % 0x100) == w
  {
    var q1 := w / 0x100;
    var q2 := q1 / 0x100;
    var q3 := q2 / 0x100;
    assert w / 0x1_0000 == q2 by { DivTwice(w, 0x100); }
    assert w / 0x100_0000 == q3 by { DivTwice(w, 0x1_0000); }
    assert q3 % 0x100 == q3;
    Recombine(w, q1, q2, q3, w % 0x100, q1 % 0x100, q2 % 0x100);
  }

  // A stored word is read back, and no other word of the block changes.
  lemma GetSetWord(s: Block, i: nat, w: Word, j: nat)
    requires i < WORDS && j < WORDS
    ensures GetWord(SetWord(s, i, w), j) == if i == j then w else GetWord(s, j)
  {
    WordBytes(w);
  }

  lemma SetWordTwice(s: Block, i: nat, w: Word)
    requires i < WORDS
    ensures SetWord(SetWord(s, i, w), i, w) == SetWord(s, i, w)
  {
  }

  lemma ZeroBlockWords(j: nat)
    requires j < WORDS
    ensures GetWord(ZeroBlock(), j) == 0
  {
  }

  // Where the bytes of a word are: the least significant one first.
  lemma LittleEndian(s: Block, i: nat)
    requires i < WORDS
    ensures var w := GetWord(s, i);
      s[4 * i] == w % 0x100 && s[4 * i + 1] == w / 0x100 % 0x100 && s[4 * i + 2] == w / 0x1_0000 % 0x100 && s[4 * i + 3] == w / 0x100_0000
  {
    var a: int, b: int, c: int, d: int := s[4 * i], s[4 * i + 1], s[4 * i + 2], s[4 * i + 3];
    var w := GetWord(s, i);
    assert w == a + 0x100 * (b + 0x100 * c + 0x1_0000 * d) && w / 0x100 == b + 0x100 * (c + 0x100 * d);
    assert w == a + 0x100 * b + 0x1_0000 * (c + 0x100 * d) && w / 0x1_0000 == c + 0x100 * d;
  }
}
