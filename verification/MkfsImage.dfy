// The image mkfs builds, before its last step writes the free map: blocks below freeblock are in use,
// all others are still zero (mkfs.c).
module MkfsImage {
  import opened Params
  import opened Blocks
  import opened Bits
  import opened FsState
  import opened FsGrow
  import opened FileBytes
  import opened Dinode
  import opened FileFrame

  // The image with the first `used` bits of the free map set, as balloc(used) will.
  function Marked(sb: Super, b: seq<Block>, used: nat): (r: seq<Block>)
    requires sb.Ok() && |b| == sb.size && used <= sb.size
    ensures |r| == |b| && forall c :: 0 <= c < |b| && !sb.IsBitmap(c) ==> r[c] == b[c]
  {
    if used == 0 then b
    else
      var m := Marked(sb, b, used - 1);
      m[BitBlock(sb, used - 1) := SetBit(m[BitBlock(sb, used - 1)], (used - 1) % BPB)]
  }

  predicate MapClear(sb: Super, b: seq<Block>)
    requires sb.Ok() && |b| == sb.size
  {
    forall c :: 0 <= c < sb.size && sb.IsBitmap(c) ==> b[c] == ZeroBlock()
  }

  lemma ZeroBits(bi: nat)
    requires bi < BPB
    ensures !GetBit(ZeroBlock(), bi)
  {
    ZeroTest(bi % 8);
  }

  lemma {:induction false} ZeroTest(k: nat)
    ensures !TestBit(0, k)
  {
    if k > 0 { ZeroTest(k - 1); }
  }

  lemma {:induction false} MarkedBits(sb: Super, b: seq<Block>, used: nat)
    requires sb.Ok() && |b| == sb.size && used <= sb.size && MapClear(sb, b)
    ensures forall c :: 0 <= c < sb.size ==> (BitAt(sb, Marked(sb, b, used), c) <==> c < used)
  {
    hide GetBit, SetBit, ZeroBlock;
    if used == 0 {
      forall c | 0 <= c < sb.size ensures !BitAt(sb, b, c) {
        BitBlockIsBitmap(sb, c);
        ZeroBits(c % BPB);
      }
    } else {
      MarkedBits(sb, b, used - 1);
      var m := Marked(sb, b, used - 1);
      var r := used - 1;
      var bb := r / BPB + sb.bmapstart;
      var x := SetBit(m[bb], r % BPB);
      BitFrame(sb, m, r, x, true);
      var m' := m[bb := x];
      assert Marked(sb, b, used) == m';
      hide BitAt, Marked;
      forall c | 0 <= c < sb.size ensures BitAt(sb, m', c) <==> c < used {
        assert BitAt(sb, m, c) <==> c < r;
      }
    }
  }

  lemma {:induction false} MarkedUpdate(sb: Super, b: seq<Block>, used: nat, a: nat, x: Block)
    requires sb.Ok() && |b| == sb.size && used <= sb.size && a < sb.size && !sb.IsBitmap(a)
    ensures Marked(sb, b[a := x], used) == Marked(sb, b, used)[a := x]
  {
    hide SetBit;
    if used > 0 {
      MarkedUpdate(sb, b, used - 1, a, x);
      BitBlockIsBitmap(sb, used - 1);
    }
  }

  // Taking block `used` is balloc's step on the marked image.
  lemma MarkedNext(sb: Super, b: seq<Block>, used: nat)
    requires sb.Ok() && |b| == sb.size && sb.DataStart() <= used < sb.size && MapClear(sb, b) && b[used] == ZeroBlock()
    ensures !BitAt(sb, Marked(sb, b, used), used)
    ensures Allocated(sb, Marked(sb, b, used), used) == Marked(sb, b, used + 1)
  {
    hide SetBit, ZeroBlock, BitAt;
    MarkedBits(sb, b, used);
    BitBlockIsBitmap(sb, used);
    assert Marked(sb, b, used + 1)[used] == ZeroBlock();
  }

  ghost predicate ZeroFrom(sb: Super, b: seq<Block>, free: nat)
    requires sb.Ok() && |b| == sb.size
  {
    forall c :: free <= c < sb.size ==> b[c] == ZeroBlock()
  }

  // The image while inode i is being worked on in memory as n[i].
  ghost predicate Sound(sb: Super, n: seq<Inode>, b: seq<Block>, free: nat, own: map<nat, Slot>) {
    && sb.Ok() && |b| == sb.size && sb.DataStart() <= free <= sb.size
    && MapClear(sb, b) && ZeroFrom(sb, b, free)
    && Shape(sb, n, Marked(sb, b, free)) && Consistent(sb, n, Marked(sb, b, free), own)
  }

  // Blocks in use lie below free.
  lemma OwnedBelow(sb: Super, n: seq<Inode>, b: seq<Block>, free: nat, own: map<nat, Slot>)
    requires Sound(sb, n, b, free, own)
    ensures forall c :: c in own ==> sb.DataStart() <= c < free
  {
    hide RefAt;
    MarkedBits(sb, b, free);
    hide BitAt;
    OwnedHigh(sb, n, Marked(sb, b, free), own);
    forall c | c in own ensures c < free {
      assert BitAt(sb, Marked(sb, b, free), c);
    }
  }

  // Boot block, super block and log are the same.
  ghost predicate LowSame(sb: Super, b0: seq<Block>, b1: seq<Block>)
  {
    |b0| == |b1| == sb.size && sb.inodestart <= sb.size && forall c :: 0 <= c < sb.inodestart ==> b1[c] == b0[c]
  }

  lemma LowTrans(sb: Super, b0: seq<Block>, b1: seq<Block>, b2: seq<Block>)
    requires LowSame(sb, b0, b1) && LowSame(sb, b1, b2)
    ensures LowSame(sb, b0, b2)
  {
  }

  lemma LowUpdate(sb: Super, b: seq<Block>, a: nat, x: Block)
    requires sb.Ok() && |b| == sb.size && sb.inodestart <= a < sb.size
    ensures LowSame(sb, b, b[a := x])
  {
  }

  lemma LowRefl(sb: Super, b: seq<Block>)
    requires sb.Ok() && |b| == sb.size
    ensures LowSame(sb, b, b)
  {
  }

  // ---- the two ways iappend takes a block ----

  lemma TakeAddr(sb: Super, n: seq<Inode>, b: seq<Block>, free: nat, own: map<nat, Slot>, i: nat, s: nat)
    requires Sound(sb, n, b, free, own) && i < |n| && s <= NDIRECT && n[i].addrs[s] == 0 && free < sb.size
    ensures var n' := n[i := PutAddr(n[i], s, free)]; var own' := own[free := (i, s)];
      && Sound(sb, n', b, free + 1, own')
      && Grown(sb, n, Marked(sb, b, free), own, n', Marked(sb, b, free + 1), own', i, {s})
      && RefAt(n', Marked(sb, b, free + 1), i, s) == free
  {
    hide Own, RefAt, Grown, Allocated, Marked;
    MarkedNext(sb, b, free);
    AllocAddr(sb, n, Marked(sb, b, free), own, i, s, free);
  }

  lemma TakeEntry(sb: Super, n: seq<Inode>, b: seq<Block>, free: nat, own: map<nat, Slot>, i: nat, s: nat)
    requires Sound(sb, n, b, free, own) && i < |n| && NDIRECT < s < SLOTS && n[i].addrs[NDIRECT] != 0 && free < sb.size
    requires RefAt(n, Marked(sb, b, free), i, s) == 0
    ensures var a := n[i].addrs[NDIRECT];
      && a < free && var b' := b[a := SetWord(b[a], s - NDIRECT - 1, free)]; var own' := own[free := (i, s)];
      && Sound(sb, n, b', free + 1, own')
      && Grown(sb, n, Marked(sb, b, free), own, n, Marked(sb, b', free + 1), own', i, {s})
      && RefAt(n, Marked(sb, b', free + 1), i, s) == free
      && DiskInodesSame(sb, b, b')
  {
    hide Own, RefAt, Grown, SetWord, MapClear, ZeroFrom, Marked, DiskInodesSame, Allocated, Consistent, BitAt;
    var a := n[i].addrs[NDIRECT];
    IndirectBelow(sb, n, b, free, own, i);
    var x := SetWord(b[a], s - NDIRECT - 1, free);
    UpdateRest(sb, b, free, a, x);
    MarkedEntry(sb, b, free, a, x);
    AllocEntry(sb, n, Marked(sb, b, free), own, i, s, free);
  }

  lemma IndirectBelow(sb: Super, n: seq<Inode>, b: seq<Block>, free: nat, own: map<nat, Slot>, i: nat)
    requires Sound(sb, n, b, free, own) && i < |n| && n[i].addrs[NDIRECT] != 0
    ensures sb.DataStart() <= n[i].addrs[NDIRECT] < free
  {
    hide RefAt, Marked, BitAt, MapClear, ZeroFrom;
    OwnedBelow(sb, n, b, free, own);
    IndirectOwned(sb, n, Marked(sb, b, free), own, {}, {}, i);
  }

  // The next free block is taken while block a is written.
  lemma MarkedEntry(sb: Super, b: seq<Block>, free: nat, a: nat, x: Block)
    requires sb.Ok() && |b| == sb.size && sb.DataStart() <= a < free < sb.size && MapClear(sb, b) && ZeroFrom(sb, b, free)
    ensures !BitAt(sb, Marked(sb, b, free), free) && Marked(sb, b, free)[a] == b[a]
    ensures Marked(sb, b[a := x], free + 1) == Allocated(sb, Marked(sb, b, free), free)[a := x]
  {
    hide MapClear, ZeroFrom, Marked, Allocated, BitAt, ZeroBlock;
    FreeIsZero(sb, b, free);
    MarkedNext(sb, b, free);
    assert !sb.IsBitmap(a);
    var m := Marked(sb, b, free + 1);
    MarkedUpdate(sb, b, free + 1, a, x);
    assert Marked(sb, b[a := x], free + 1) == m[a := x];
  }

  lemma FreeIsZero(sb: Super, b: seq<Block>, free: nat)
    requires sb.Ok() && |b| == sb.size && ZeroFrom(sb, b, free) && free < sb.size
    ensures b[free] == ZeroBlock()
  {
  }

  lemma UpdateRest(sb: Super, b: seq<Block>, free: nat, a: nat, x: Block)
    requires sb.Ok() && |b| == sb.size && MapClear(sb, b) && ZeroFrom(sb, b, free) && sb.DataStart() <= a < free <= sb.size
    ensures MapClear(sb, b[a := x]) && ZeroFrom(sb, b[a := x], free) && ZeroFrom(sb, b[a := x], free + 1)
    ensures DiskInodesSame(sb, b, b[a := x])
  {
    hide ZeroBlock;
  }

  // A data block of file i is written.
  lemma StoreSlots(sb: Super, n: seq<Inode>, b: seq<Block>, free: nat, own: map<nat, Slot>, i: nat, s: nat, x: Block)
    requires Sound(sb, n, b, free, own) && i < |n| && s < SLOTS && s != NDIRECT
    requires RefAt(n, Marked(sb, b, free), i, s) != 0
    ensures var a := RefAt(n, Marked(sb, b, free), i, s);
      && a < free
      && Marked(sb, b, free)[a] == b[a]
      && Marked(sb, b[a := x], free) == Marked(sb, b, free)[a := x]
      && Sound(sb, n, b[a := x], free, own)
      && SameRefs(n, Marked(sb, b, free), n, Marked(sb, b, free)[a := x], {})
      && Nodes(sb, b[a := x]) == Nodes(sb, b)
  {
    hide Own, Marked, ZeroBlock, RefAt, MapClear, ZeroFrom, Nodes, BitAt, DiskInodesSame;
    var m := Marked(sb, b, free);
    var a := RefAt(n, m, i, s);
    RefInRange(sb, n, m, own, i, s);
    OwnedBelow(sb, n, b, free, own);
    StoreKeeps(sb, n, m, own, {}, a, x);
    UpdateRest(sb, b, free, a, x);
    MarkedUpdate(sb, b, free, a, x);
    NodesSame(sb, b, b[a := x]);
  }

  lemma SpliceEnd(w: seq<Byte>, piece: seq<Byte>)
    ensures Splice(w, |w|, piece) == w + piece
  {
  }

  // ---- inodes ----

  // The file's blocks end where its size ends.
  ghost predicate Packed(nd: Inode, blk: seq<Block>, len: nat)
    requires |nd.addrs| == NDIRECT + 1
  {
    forall bn :: 0 <= bn < MAXFILE && len <= bn * BSIZE ==> Ref(nd, blk, FileSlot(bn)) == 0
  }

  function NewInode(typ: Half, nlink: Half): (nd: Inode)
    ensures |nd.addrs| == NDIRECT + 1
  {
    Inode(typ, 0, 0, nlink, 0, [0, 0, 0, 0, 0, 0, 0, 0, 0, 0, 0, 0, 0])
  }

  lemma PackedNew(typ: Half, nlink: Half, blk: seq<Block>)
    ensures NoHoles(NewInode(typ, nlink), blk) && Packed(NewInode(typ, nlink), blk, 0)
    ensures Content(NewInode(typ, nlink), blk) == []
  {
  }

  lemma PackedGrown(sb: Super, n0: seq<Inode>, b0: seq<Block>, o0: map<nat, Slot>,
                    n1: seq<Inode>, b1: seq<Block>, o1: map<nat, Slot>, i: nat, bn: nat, len: nat)
    requires Shape(sb, n0, b0) && Shape(sb, n1, b1) && i < |n0| && |n1| == |n0| && bn < MAXFILE && bn * BSIZE < len
    requires Grown(sb, n0, b0, o0, n1, b1, o1, i, {FileSlot(bn), NDIRECT})
    requires Packed(n0[i], b0, len)
    ensures Packed(n1[i], b1, len)
  {
    hide Ref;
    forall m | 0 <= m < MAXFILE && len <= m * BSIZE ensures Ref(n1[i], b1, FileSlot(m)) == 0 {
      SlotKept(sb, n0, b0, o0, n1, b1, o1, i, {FileSlot(bn), NDIRECT}, FileSlot(m));
    }
  }

  lemma PackedRefs(sb: Super, n: seq<Inode>, b: seq<Block>, b': seq<Block>, i: nat, len: nat)
    requires Shape(sb, n, b) && Shape(sb, n, b') && i < |n| && SameRefs(n, b, n, b', {}) && Packed(n[i], b, len)
    ensures Packed(n[i], b', len)
  {
    hide Ref;
    forall m | 0 <= m < MAXFILE && len <= m * BSIZE ensures Ref(n[i], b', FileSlot(m)) == 0 {
      assert RefAt(n, b', i, FileSlot(m)) == RefAt(n, b, i, FileSlot(m));
    }
  }

  lemma PackedMore(nd: Inode, blk: seq<Block>, len: nat, more: nat)
    requires |nd.addrs| == NDIRECT + 1 && Packed(nd, blk, len) && len <= more
    ensures Packed(nd, blk, more)
  {
  }

  // winode: the stored inodes are as before but for the one written.
  lemma WinodeNodes(sb: Super, b: seq<Block>, i: nat, nd: Inode)
    requires sb.Ok() && |b| == sb.size && i < sb.ninodes && |nd.addrs| == NDIRECT + 1
    ensures sb.IBlock(i) < sb.bmapstart
    ensures Nodes(sb, b[sb.IBlock(i) := PutInode(b[sb.IBlock(i)], i % IPB, nd)]) == Nodes(sb, b)[i := nd]
  {
    hide PutInode, GetInode;
    var a := sb.IBlock(i);
    IBlockBelow(sb, i);
    var b' := b[a := PutInode(b[a], i % IPB, nd)];
    forall j | 0 <= j < sb.ninodes ensures DiskInode(sb, b', j) == if j == i then nd else DiskInode(sb, b, j) {
      IBlockBelow(sb, j);
      if sb.IBlock(j) == a {
        GetPutInode(b[a], i % IPB, nd, j % IPB);
        assert j % IPB == i % IPB ==> j == i;
      }
    }
  }

  lemma ZeroInode(k: nat)
    requires k < IPB
    ensures GetInode(ZeroBlock(), k) == NewInode(0, 0)
  {
    hide GetWord, ZeroBlock;
    var ws := GetWords(ZeroBlock(), INODEWORDS * k, INODEWORDS);
    forall m | 0 <= m < INODEWORDS ensures ws[m] == 0 {
      ZeroBlockWords(INODEWORDS * k + m);
    }
    assert ws[3..] == NewInode(0, 0).addrs;
  }

  // winode after the last turn of iappend.
  lemma FinishAppend(sb: Super, n0: seq<Inode>, b0: seq<Block>, b: seq<Block>, free: nat, own: map<nat, Slot>,
                     i: nat, d: Inode, want: seq<Byte>, log: set<nat>, lo: nat, hi: nat)
    requires sb.Ok() && |b| == sb.size && i < sb.ninodes && |d.addrs| == NDIRECT + 1 && Shape(sb, n0, b0)
    requires var n := Nodes(sb, b)[i := d];
      && Sound(sb, n, b, free, own)
      && Wrote(sb, n0, b0, {}, n, Marked(sb, b, free), own, log, i, want, lo, hi)
    requires |want| < TWO32 && Packed(d, Marked(sb, b, free), |want|)
    ensures sb.IBlock(i) < sb.bmapstart
    ensures var d' := d.(size := |want|); var b' := b[sb.IBlock(i) := PutInode(b[sb.IBlock(i)], i % IPB, d')];
      && Nodes(sb, b') == Nodes(sb, b)[i := d'] && Sound(sb, Nodes(sb, b'), b', free, own)
      && NoHoles(d', Marked(sb, b', free)) && Content(d', Marked(sb, b', free)) == want
      && Packed(d', Marked(sb, b', free), |want|)
      && OthersSame(n0, b0, Nodes(sb, b'), Marked(sb, b', free), i)
  {
    hide Own, Marked, MapClear, ZeroFrom, Nodes, DiskInodesSame, Wrote, OthersSame, Content, MappedTo, PutInode, Packed,
         KeepsSynced, Synced, LoggedFor;
    var a := sb.IBlock(i);
    IBlockBelow(sb, i);
    var n := Nodes(sb, b)[i := d];
    var m := Marked(sb, b, free);
    var d' := d.(size := |want|);
    var n' := Nodes(sb, b)[i := d'];
    assert n' == n[i := n[i].(size := |want|)];
    var x := PutInode(b[a], i % IPB, d');
    FinishGrown(sb, n0, b0, {}, n, m, own, log, i, want, lo, hi);
    WinodeNodes(sb, b, i, d');
    MarkedUpdate(sb, b, free, a, x);
    UpdateLow(sb, b, free, a, x);
    PackedSize(d, m, |want|);
    UpdateKeeps(sb, n', m, own, i);
    PackedRefs(sb, n', m, m[a := x], i, |want|);
  }

  lemma UpdateLow(sb: Super, b: seq<Block>, free: nat, a: nat, x: Block)
    requires sb.Ok() && |b| == sb.size && MapClear(sb, b) && sb.DataStart() <= free && ZeroFrom(sb, b, free) && a < sb.bmapstart
    ensures MapClear(sb, b[a := x]) && ZeroFrom(sb, b[a := x], free)
  {
    hide ZeroBlock;
  }

  lemma PackedSize(d: Inode, b: seq<Block>, len: Word)
    requires |d.addrs| == NDIRECT + 1 && Packed(d, b, len)
    ensures Packed(d.(size := len), b, len)
  {
    hide GetWord;
    forall s | 0 <= s < SLOTS ensures Ref(d.(size := len), b, s) == Ref(d, b, s) {
    }
  }

  // Every inode of the image has just the blocks its size needs, and those not handed out yet are blank.
  ghost predicate Neat(sb: Super, n: seq<Inode>, img: seq<Block>, freeinode: nat)
    requires Shape(sb, n, img)
  {
    && freeinode <= |n|
    && (forall j {:trigger NeatAt(n, img, j)} :: 0 <= j < |n| ==> NeatAt(n, img, j))
    && (forall j :: freeinode <= j < |n| ==> n[j] == NewInode(0, 0))
  }

  ghost predicate NeatAt(n: seq<Inode>, img: seq<Block>, j: nat) {
    j < |n| && |n[j].addrs| == NDIRECT + 1 && NoHoles(n[j], img) && Packed(n[j], img, n[j].size)
  }

  lemma NeatOthers(sb: Super, n0: seq<Inode>, b0: seq<Block>, n1: seq<Inode>, b1: seq<Block>, i: nat, f0: nat, f1: nat)
    requires Shape(sb, n0, b0) && Shape(sb, n1, b1) && Neat(sb, n0, b0, f0) && OthersSame(n0, b0, n1, b1, i)
    requires i < f1 <= |n1| && f0 <= f1
    requires NoHoles(n1[i], b1) && Packed(n1[i], b1, n1[i].size)
    ensures Neat(sb, n1, b1, f1)
  {
    hide NoHoles, Packed, Ref;
    forall j | 0 <= j < |n1| && j != i ensures NeatAt(n1, b1, j) && n1[j] == n0[j] {
      assert SameFile(n0, b0, n1, b1, j) && NeatAt(n0, b0, j);
      SameNeat(n0, b0, n1, b1, j);
    }
    assert NeatAt(n1, b1, i);
  }

  lemma SameNeat(n0: seq<Inode>, b0: seq<Block>, n1: seq<Inode>, b1: seq<Block>, j: nat)
    requires SameFile(n0, b0, n1, b1, j) && NoHoles(n0[j], b0) && Packed(n0[j], b0, n0[j].size)
    ensures NoHoles(n1[j], b1) && Packed(n1[j], b1, n1[j].size)
  {
    hide Ref;
    forall bn | 0 <= bn < MAXFILE ensures Ref(n1[j], b1, FileSlot(bn)) == Ref(n0[j], b0, FileSlot(bn)) {
      assert SameSlot(n0, b0, n1, b1, j, FileSlot(bn));
    }
  }

  lemma SameContent(n0: seq<Inode>, b0: seq<Block>, n1: seq<Inode>, b1: seq<Block>, j: nat)
    requires SameFile(n0, b0, n1, b1, j) && NoHoles(n0[j], b0)
    ensures NoHoles(n1[j], b1) && Content(n1[j], b1) == Content(n0[j], b0)
  {
    hide NoHoles, Content;
    HoldsContent(n0[j], b0);
    SameFileBytes(n0, b0, n1, b1, j, Content(n0[j], b0));
    HoldsContent(n1[j], b1);
  }

  ghost predicate WithoutHoles(n: seq<Inode>, b: seq<Block>, j: nat) {
    j < |n| && |n[j].addrs| == NDIRECT + 1 && NoHoles(n[j], b)
  }

  // File j is w.
  ghost predicate Reads(n: seq<Inode>, b: seq<Block>, j: nat, w: seq<Byte>) {
    WithoutHoles(n, b, j) && Content(n[j], b) == w
  }

  // File j begins with w.
  ghost predicate Starts(n: seq<Inode>, b: seq<Block>, j: nat, w: seq<Byte>) {
    j < |n| && Holds(n[j], b, w)
  }

  // The files are w[0], w[1], ...
  ghost predicate AllRead(n: seq<Inode>, b: seq<Block>, w: seq<seq<Byte>>) {
    |w| == |n| && forall j {:trigger Reads(n, b, j, w[j])} :: 0 <= j < |n| ==> Reads(n, b, j, w[j])
  }

  lemma OthersRead(n0: seq<Inode>, b0: seq<Block>, n1: seq<Inode>, b1: seq<Block>, i: nat, w: seq<seq<Byte>>)
    requires AllRead(n0, b0, w) && i < |n0| == |n1| && OthersSame(n0, b0, n1, b1, i)
    ensures forall j {:trigger Reads(n1, b1, j, w[j])} :: 0 <= j < |w| && j != i ==> Reads(n1, b1, j, w[j])
  {
    hide NoHoles, Content, Ref;
    forall j | 0 <= j < |n1| && j != i ensures Reads(n1, b1, j, w[j]) {
      assert Reads(n0, b0, j, w[j]) && SameFile(n0, b0, n1, b1, j);
      SameContent(n0, b0, n1, b1, j);
    }
  }

  // Only file i changed.
  lemma OneChanged(n0: seq<Inode>, b0: seq<Block>, n1: seq<Inode>, b1: seq<Block>, i: nat, w: seq<seq<Byte>>, x: seq<Byte>)
    requires AllRead(n0, b0, w) && i < |n0| == |n1| && OthersSame(n0, b0, n1, b1, i) && Reads(n1, b1, i, x)
    ensures AllRead(n1, b1, w[i := x])
  {
    OthersRead(n0, b0, n1, b1, i, w);
    hide Reads, OthersSame;
    var w' := w[i := x];
    forall j | 0 <= j < |n1| ensures Reads(n1, b1, j, w'[j]) {
      if j != i {
        assert Reads(n1, b1, j, w[j]);
      }
    }
  }

  lemma BlankRefs(typ: Half, blk: seq<Block>)
    ensures forall s :: 0 <= s < SLOTS ==> Ref(NewInode(typ, 1), blk, s) == Ref(NewInode(0, 0), blk, s)
  {
  }

  lemma StartAppend(sb: Super, n: seq<Inode>, b: seq<Block>, o: map<nat, Slot>, i: nat)
    requires Shape(sb, n, b) && i < |n| && NoHoles(n[i], b)
    ensures n[i := n[i]] == n && n[i].size <= MAXBYTES
    ensures Content(n[i], b) + [] == Content(n[i], b)
    ensures Wrote(sb, n, b, {}, n, b, o, {}, i, Content(n[i], b), 0, (n[i].size + BSIZE - 1) / BSIZE)
  {
    hide Wrote, Content, Ref;
    WroteStart(sb, n, b, o, {}, i, 0, (n[i].size + BSIZE - 1) / BSIZE);
  }

  // ---- winode of an inode whose slots do not change ----

  lemma RewriteInode(sb: Super, b: seq<Block>, free: nat, own: map<nat, Slot>, i: nat, d: Inode)
    requires sb.Ok() && |b| == sb.size && i < sb.ninodes && |d.addrs| == NDIRECT + 1
    requires Sound(sb, Nodes(sb, b), b, free, own)
    requires forall s :: 0 <= s < SLOTS ==> Ref(d, Marked(sb, b, free), s) == Ref(Nodes(sb, b)[i], Marked(sb, b, free), s)
    ensures sb.IBlock(i) < sb.bmapstart
    ensures var b' := b[sb.IBlock(i) := PutInode(b[sb.IBlock(i)], i % IPB, d)];
      && Nodes(sb, b') == Nodes(sb, b)[i := d] && Sound(sb, Nodes(sb, b'), b', free, own)
      && OthersSame(Nodes(sb, b), Marked(sb, b, free), Nodes(sb, b'), Marked(sb, b', free), i)
      && (forall s :: 0 <= s < SLOTS ==> Ref(d, Marked(sb, b', free), s) == Ref(d, Marked(sb, b, free), s))
      && (forall w :: Holds(d, Marked(sb, b, free), w) ==> Holds(d, Marked(sb, b', free), w))
  {
    hide Own, Marked, MapClear, ZeroFrom, Nodes, PutInode, Ref, Holds, OthersSame;
    var a := sb.IBlock(i);
    IBlockBelow(sb, i);
    var n, m := Nodes(sb, b), Marked(sb, b, free);
    var n' := n[i := d];
    var x := PutInode(b[a], i % IPB, d);
    assert SameRefs(n, m, n', m, {});
    OwnSame(sb, n, m, n', m, own, {}, {});
    OneRewritten(sb, n, m, i, d);
    WinodeNodes(sb, b, i, d);
    MarkedUpdate(sb, b, free, a, x);
    UpdateLow(sb, b, free, a, x);
    UpdateKeeps(sb, n', m, own, i);
    OthersTrans(n, m, n', m, n', m[a := x], i);
    forall s | 0 <= s < SLOTS ensures Ref(d, m[a := x], s) == Ref(d, m, s) {
      assert RefAt(n', m[a := x], i, s) == RefAt(n', m, i, s);
    }
  }

  lemma OneRewritten(sb: Super, n: seq<Inode>, b: seq<Block>, i: nat, d: Inode)
    requires Shape(sb, n, b) && i < |n|
    ensures OthersSame(n, b, n[i := d], b, i)
  {
    hide Ref;
  }

  // The root directory's size is rounded up: that leaves a hole unless the last block was in use.
  lemma RoundedUp(d: Inode, blk: seq<Block>)
    requires |d.addrs| == NDIRECT + 1 && NoHoles(d, blk) && Packed(d, blk, d.size)
    ensures MappedTo(d, blk, (d.size / BSIZE + 1) * BSIZE) <==> d.size % BSIZE != 0
  {
    hide Ref;
    var q := d.size / BSIZE;
    if d.size % BSIZE == 0 {
      assert q * BSIZE == d.size;
      assert q < MAXFILE ==> Ref(d, blk, FileSlot(q)) == 0;
    } else {
      forall bn | 0 <= bn < MAXFILE && bn * BSIZE < (q + 1) * BSIZE ensures 0 < Ref(d, blk, FileSlot(bn)) < |blk| {
        assert bn <= q;
      }
    }
  }

  // ---- ialloc and iappend ----

  // The image between two calls: it agrees with own, and its files are w.
  ghost predicate Built(sb: Super, b: seq<Block>, free: nat, own: map<nat, Slot>, freeinode: nat, w: seq<seq<Byte>>) {
    && sb.Ok() && |b| == sb.size && |w| == sb.ninodes && freeinode <= |w|
    && Sound(sb, Nodes(sb, b), b, free, own)
    && Neat(sb, Nodes(sb, b), Marked(sb, b, free), freeinode) && AllRead(Nodes(sb, b), Marked(sb, b, free), w)
  }

  lemma AllocBuilt(sb: Super, b: seq<Block>, free: nat, own: map<nat, Slot>, i: nat, w: seq<seq<Byte>>, typ: Half)
    requires Built(sb, b, free, own, i, w) && i < sb.ninodes
    ensures sb.IBlock(i) < sb.bmapstart
    ensures var b' := b[sb.IBlock(i) := PutInode(b[sb.IBlock(i)], i % IPB, NewInode(typ, 1))];
      Built(sb, b', free, own, i + 1, w[i := []]) && Nodes(sb, b') == Nodes(sb, b)[i := NewInode(typ, 1)]
  {
    hide Own, Marked, MapClear, ZeroFrom, Nodes, PutInode, Ref, NoHoles, OthersSame, Content, Consistent, Packed;
    var n, m := Nodes(sb, b), Marked(sb, b, free);
    BlankRefs(typ, m);
    RewriteInode(sb, b, free, own, i, NewInode(typ, 1));
    var b' := b[sb.IBlock(i) := PutInode(b[sb.IBlock(i)], i % IPB, NewInode(typ, 1))];
    PackedNew(typ, 1, Marked(sb, b', free));
    NeatOthers(sb, n, m, Nodes(sb, b'), Marked(sb, b', free), i, i, i + 1);
    OneChanged(n, m, Nodes(sb, b'), Marked(sb, b', free), i, w, []);
  }

  // (n0, b0) is the image when iappend began.
  lemma AppendBuilt(sb: Super, n0: seq<Inode>, b0: seq<Block>, b: seq<Block>, free: nat, own: map<nat, Slot>,
                    i: nat, d: Inode, want: seq<Byte>, log: set<nat>, freeinode: nat, w: seq<seq<Byte>>)
    requires sb.Ok() && |b| == sb.size && |d.addrs| == NDIRECT + 1 && i < freeinode <= sb.ninodes == |w|
    requires Shape(sb, n0, b0) && Neat(sb, n0, b0, freeinode) && AllRead(n0, b0, w)
    requires var n := Nodes(sb, b)[i := d];
      && Sound(sb, n, b, free, own)
      && Wrote(sb, n0, b0, {}, n, Marked(sb, b, free), own, log, i, want, 0, (|want| + BSIZE - 1) / BSIZE)
    requires |want| < TWO32 && Packed(d, Marked(sb, b, free), |want|)
    ensures sb.IBlock(i) < sb.bmapstart
    ensures Built(sb, b[sb.IBlock(i) := PutInode(b[sb.IBlock(i)], i % IPB, d.(size := |want|))], free, own, freeinode, w[i := want])
  {
    hide Own, Marked, MapClear, ZeroFrom, Nodes, PutInode, Ref, NoHoles, OthersSame, Content, Consistent, Packed, Wrote;
    FinishAppend(sb, n0, b0, b, free, own, i, d, want, log, 0, (|want| + BSIZE - 1) / BSIZE);
    var b' := b[sb.IBlock(i) := PutInode(b[sb.IBlock(i)], i % IPB, d.(size := |want|))];
    NeatOthers(sb, n0, b0, Nodes(sb, b'), Marked(sb, b', free), i, freeinode, freeinode);
    OneChanged(n0, b0, Nodes(sb, b'), Marked(sb, b', free), i, w, want);
  }

  // ---- the empty image ----

  lemma EmptyImage(sb: Super, b: seq<Block>)
    requires sb.Ok() && |b| == sb.size && forall c :: 0 <= c < sb.size && c != 1 ==> b[c] == ZeroBlock()
    ensures forall j :: 0 <= j < sb.ninodes ==> Nodes(sb, b)[j] == NewInode(0, 0)
    ensures Sound(sb, Nodes(sb, b), b, sb.DataStart(), map[])
  {
    hide GetInode, ZeroBlock, Marked, BitAt;
    var n, m := Nodes(sb, b), Marked(sb, b, sb.DataStart());
    forall j | 0 <= j < sb.ninodes ensures n[j] == NewInode(0, 0) {
      IBlockBelow(sb, j);
      ZeroInode(j % IPB);
    }
    MarkedBits(sb, b, sb.DataStart());
    forall i, s | 0 <= i < |n| && 0 <= s < SLOTS ensures RefAt(n, m, i, s) == 0 {
    }
    assert MapClear(sb, b) && ZeroFrom(sb, b, sb.DataStart());
    hide RefAt, MapClear, ZeroFrom;
  }

  lemma SizeRefs(d: Inode, size: Word, blk: seq<Block>)
    requires |d.addrs| == NDIRECT + 1
    ensures forall s :: 0 <= s < SLOTS ==> Ref(d.(size := size), blk, s) == Ref(d, blk, s)
    ensures forall len :: MappedTo(d.(size := size), blk, len) <==> MappedTo(d, blk, len)
    ensures forall w :: Holds(d.(size := size), blk, w) <==> Holds(d, blk, w)
  {
    hide GetWord;
    assert forall s :: 0 <= s < SLOTS ==> Ref(d.(size := size), blk, s) == Ref(d, blk, s);
    hide Ref;
    forall w ensures Holds(d.(size := size), blk, w) <==> Holds(d, blk, w) {
      assert forall p :: 0 <= p < MAXBYTES ==> FileByte(d.(size := size), blk, p) == FileByte(d, blk, p);
    }
  }

  lemma SameMapped(d: Inode, b0: seq<Block>, b1: seq<Block>)
    requires |d.addrs| == NDIRECT + 1 && |b1| == |b0|
    requires forall s :: 0 <= s < SLOTS ==> Ref(d, b1, s) == Ref(d, b0, s)
    ensures NoHoles(d, b1) <==> NoHoles(d, b0)
  {
    hide Ref;
  }

  lemma RootFits(sb: Super, b: seq<Block>, free: nat, own: map<nat, Slot>, freeinode: nat, w: seq<seq<Byte>>, i: nat)
    requires Built(sb, b, free, own, freeinode, w) && i < freeinode
    ensures sb.Ok() && |b| == sb.size && i < |w| == sb.ninodes
    ensures Nodes(sb, b)[i].size == |w[i]| <= MAXBYTES
  {
    hide Own, MapClear, ZeroFrom, Marked, Nodes, Packed, Content;
    assert Reads(Nodes(sb, b), Marked(sb, b, free), i, w[i]);
  }

  lemma RootRounded(sb: Super, b: seq<Block>, free: nat, own: map<nat, Slot>, freeinode: nat, w: seq<seq<Byte>>, i: nat, d: Inode)
    requires Built(sb, b, free, own, freeinode, w) && i < freeinode
    requires i < |w| && |d.addrs| == NDIRECT + 1 && d.size == (|w[i]| / BSIZE + 1) * BSIZE
    requires sb.Ok() && |b| == sb.size && i < sb.ninodes && d == Nodes(sb, b)[i].(size := d.size)
    ensures sb.IBlock(i) < sb.bmapstart
    ensures RootDone(sb, b, b[sb.IBlock(i) := PutInode(b[sb.IBlock(i)], i % IPB, d)], free, own, w, i, d)
  {
    hide Own, Marked, MapClear, ZeroFrom, Nodes, PutInode, Ref, OthersSame, Content, Consistent, Packed, NoHoles, Holds;
    var n, m := Nodes(sb, b), Marked(sb, b, free);
    assert Reads(n, m, i, w[i]);
    assert NeatAt(n, m, i);
    RootSize(n[i], m);
    RootFits(sb, b, free, own, freeinode, w, i);
    RewriteInode(sb, b, free, own, i, d);
    var b' := b[sb.IBlock(i) := PutInode(b[sb.IBlock(i)], i % IPB, d)];
    OthersRead(n, m, Nodes(sb, b'), Marked(sb, b', free), i, w);
    SameMapped(d, m, Marked(sb, b', free));
  }

  // File i has inode d now.  It begins as before; it has a hole exactly if its old size was a whole number
  // of blocks.  All other files are as they were.
  ghost predicate RootDone(sb: Super, b: seq<Block>, b': seq<Block>, free: nat, own: map<nat, Slot>, w: seq<seq<Byte>>, i: nat, d: Inode) {
    && Sound(sb, if sb.Ok() && |b'| == sb.size then Nodes(sb, b') else [], b', free, own)
    && |b| == sb.size && |w| == sb.ninodes && i < |w|
    && var n' := Nodes(sb, b'); var m' := Marked(sb, b', free);
    && n' == Nodes(sb, b)[i := d]
    && (WithoutHoles(n', m', i) <==> |w[i]| % BSIZE != 0) && Starts(n', m', i, w[i])
    && (forall j {:trigger Reads(n', m', j, w[j])} :: 0 <= j < |w| && j != i ==> Reads(n', m', j, w[j]))
  }

  lemma RootSize(nd: Inode, m: seq<Block>)
    requires |nd.addrs| == NDIRECT + 1 && NoHoles(nd, m) && Packed(nd, m, nd.size)
    ensures (nd.size / BSIZE + 1) * BSIZE < TWO32
    ensures var d := nd.(size := (nd.size / BSIZE + 1) * BSIZE);
      && (NoHoles(d, m) <==> nd.size % BSIZE != 0) && Holds(d, m, Content(nd, m))
      && (forall s :: 0 <= s < SLOTS ==> Ref(d, m, s) == Ref(nd, m, s))
  {
    hide Ref, Content;
    RoundedUp(nd, m);
    HoldsContent(nd, m);
    SizeRefs(nd, (nd.size / BSIZE + 1) * BSIZE, m);
  }

  // ---- the free map ----

  lemma NoneMarked(sb: Super, b: seq<Block>)
    requires sb.Ok() && |b| == sb.size && MapClear(sb, b)
    ensures b[sb.bmapstart := ZeroBlock()] == Marked(sb, b, 0)
  {
    assert sb.IsBitmap(sb.bmapstart);
  }

  lemma MarkedStep(sb: Super, b: seq<Block>, k: nat)
    requires sb.Ok() && |b| == sb.size && k < sb.size && k < BPB
    ensures Marked(sb, b, k + 1) == Marked(sb, b, k)[sb.bmapstart := SetBit(Marked(sb, b, k)[sb.bmapstart], k)]
  {
    hide SetBit;
  }
}
