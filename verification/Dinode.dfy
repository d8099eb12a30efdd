// The on-disk form of an inode: 64 bytes, eight to a block (fs.h: struct dinode; fs.c: iupdate, ilock).
module Dinode {
  import opened Blocks
  import opened FsState

  const INODEWORDS: nat := 16

  // type and major share the first word, minor and nlink the second.
  function InodeWords(nd: Inode): (ws: seq<Word>)
    requires |nd.addrs| == NDIRECT + 1
    ensures |ws| == INODEWORDS
  {
    [nd.typ + 0x1_0000 * nd.major, nd.minor + 0x1_0000 * nd.nlink, nd.size] + nd.addrs
  }

  function WordsInode(ws: seq<Word>): (nd: Inode)
    requires |ws| == INODEWORDS
    ensures |nd.addrs| == NDIRECT + 1
  {
    Inode(ws[0] % 0x1_0000, ws[0] / 0x1_0000, ws[1] % 0x1_0000, ws[1] / 0x1_0000, ws[2], ws[3..])
  }

  function PutWords(s: Block, base: nat, ws: seq<Word>): Block
    requires base + |ws| <= WORDS
  {
    if ws == [] then s else SetWord(PutWords(s, base, ws[..|ws| - 1]), base + |ws| - 1, ws[|ws| - 1])
  }

  function GetWords(s: Block, base: nat, n: nat): (ws: seq<Word>)
    requires base + n <= WORDS
    ensures |ws| == n && forall k :: 0 <= k < n ==> ws[k] == GetWord(s, base + k)
  {
    if n == 0 then [] else GetWords(s, base, n - 1) + [GetWord(s, base + n - 1)]
  }

  lemma {:induction false} PutWordsAt(s: Block, base: nat, ws: seq<Word>, j: nat)
    requires base + |ws| <= WORDS && j < WORDS
    ensures GetWord(PutWords(s, base, ws), j) == if base <= j < base + |ws| then ws[j - base] else GetWord(s, j)
  {
    hide GetWord, SetWord;
    if ws != [] {
      PutWordsAt(s, base, ws[..|ws| - 1], j);
      GetSetWord(PutWords(s, base, ws[..|ws| - 1]), base + |ws| - 1, ws[|ws| - 1], j);
    }
  }

  // iupdate: the k-th inode of the block is overwritten field by field.
  function PutInode(s: Block, k: nat, nd: Inode): Block
    requires k < IPB && |nd.addrs| == NDIRECT + 1
  {
    PutWords(s, INODEWORDS * k, InodeWords(nd))
  }

  // ilock: the fields are copied from the k-th inode of the block.
  function GetInode(s: Block, k: nat): (nd: Inode)
    requires k < IPB
    ensures |nd.addrs| == NDIRECT + 1
  {
    WordsInode(GetWords(s, INODEWORDS * k, INODEWORDS))
  }

  lemma InodeWordsBack(nd: Inode)
    requires |nd.addrs| == NDIRECT + 1
    ensures WordsInode(InodeWords(nd)) == nd
  {
    assert InodeWords(nd)[3..] == nd.addrs;
  }

  // What iupdate stores is what ilock reads back, and the other seven inodes of the block stay.
  lemma GetPutInode(s: Block, k: nat, nd: Inode, j: nat)
    requires k < IPB && j < IPB && |nd.addrs| == NDIRECT + 1
    ensures GetInode(PutInode(s, k, nd), j) == if j == k then nd else GetInode(s, j)
  {
    hide GetWord, SetWord, PutWords, GetWords, InodeWords, WordsInode;
    var t := PutInode(s, k, nd);
    var ws := InodeWords(nd);
    var got := GetWords(t, INODEWORDS * j, INODEWORDS);
    forall m | 0 <= m < INODEWORDS
      ensures got[m] == if j == k then ws[m] else GetWords(s, INODEWORDS * j, INODEWORDS)[m]
    {
      PutWordsAt(s, INODEWORDS * k, ws, INODEWORDS * j + m);
    }
    if j == k {
      assert got == ws;
      InodeWordsBack(nd);
    } else {
      assert got == GetWords(s, INODEWORDS * j, INODEWORDS);
    }
  }

  // Where the fields are: struct dinode, 64 bytes long, little-endian.
  lemma Layout(s: Block, k: nat)
    requires k < 8
    ensures var nd := GetInode(s, k);
      && nd.typ == Word4(s[64 * k], s[64 * k + 1], 0, 0) && nd.major == Word4(s[64 * k + 2], s[64 * k + 3], 0, 0)
      && nd.minor == Word4(s[64 * k + 4], s[64 * k + 5], 0, 0) && nd.nlink == Word4(s[64 * k + 6], s[64 * k + 7], 0, 0)
      && nd.size == Word4(s[64 * k + 8], s[64 * k + 9], s[64 * k + 10], s[64 * k + 11])
  {
    hide GetWords, Word4;
    var ws := GetWords(s, 16 * k, 16);
    assert ws[0] == GetWord(s, 16 * k) && ws[1] == GetWord(s, 16 * k + 1) && ws[2] == GetWord(s, 16 * k + 2);
    Halves(s[64 * k], s[64 * k + 1], s[64 * k + 2], s[64 * k + 3]);
    Halves(s[64 * k + 4], s[64 * k + 5], s[64 * k + 6], s[64 * k + 7]);
  }

  lemma Halves(a: Byte, b: Byte, c: Byte, d: Byte)
    ensures Word4(a, b, c, d) % 0x1_0000 == Word4(a, b, 0, 0) && Word4(a, b, c, d) / 0x1_0000 == Word4(c, d, 0, 0)
  {
    var low: int, high: int := Word4(a, b, 0, 0), Word4(c, d, 0, 0);
    var w: int := Word4(a, b, c, d);
    assert w == 0x1_0000 * high + low && 0 <= low < 0x1_0000;
    hide Word4;
    Split(w, high, low);
  }

  lemma Split(w: int, high: int, low: int)
    requires w == 0x1_0000 * high + low && 0 <= low < 0x1_0000
    ensures w % 0x1_0000 == low && w / 0x1_0000 == high
  {
  }

  lemma AddrLayout(s: Block, k: nat, j: nat)
    requires k < 8 && j < 13
    ensures var at := 64 * k + 12 + 4 * j;
      GetInode(s, k).addrs[j] == Word4(s[at], s[at + 1], s[at + 2], s[at + 3])
  {
    hide GetWords, Word4;
    var ws := GetWords(s, 16 * k, 16);
    assert ws[3..][j] == ws[3 + j] == GetWord(s, 16 * k + 3 + j);
  }
}
