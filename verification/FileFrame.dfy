// What a write to one file leaves alone: every other file, the inodes stored on disk, and all
// blocks but the few it logs.
module FileFrame {
  import opened Params
  import opened Blocks
  import opened FsState
  import opened FsGrow
  import opened FileBytes
  import opened Dinode

  // ---- other files ----

  // Inode j, all its slots and all its data blocks are the same.
  ghost predicate SameFile(n0: seq<Inode>, b0: seq<Block>, n1: seq<Inode>, b1: seq<Block>, j: nat) {
    && j < |n0| && j < |n1| && n1[j] == n0[j] && |n0[j].addrs| == NDIRECT + 1 && |b1| == |b0|
    && forall s :: 0 <= s < SLOTS ==> SameSlot(n0, b0, n1, b1, j, s)
  }

  predicate SameSlot(n0: seq<Inode>, b0: seq<Block>, n1: seq<Inode>, b1: seq<Block>, j: nat, s: nat)
    requires j < |n0| && j < |n1| && n1[j] == n0[j] && |n0[j].addrs| == NDIRECT + 1 && |b1| == |b0| && s < SLOTS
  {
    var r := RefAt(n0, b0, j, s);
    RefAt(n1, b1, j, s) == r && (s != NDIRECT && 0 < r < |b0| ==> b1[r] == b0[r])
  }

  ghost predicate OthersSame(n0: seq<Inode>, b0: seq<Block>, n1: seq<Inode>, b1: seq<Block>, i: nat) {
    |n1| == |n0| && forall j :: 0 <= j < |n0| && j != i ==> SameFile(n0, b0, n1, b1, j)
  }

  lemma OthersRefl(sb: Super, n: seq<Inode>, b: seq<Block>, i: nat)
    requires Shape(sb, n, b)
    ensures OthersSame(n, b, n, b, i)
  {
  }

  lemma OthersTrans(n0: seq<Inode>, b0: seq<Block>, n1: seq<Inode>, b1: seq<Block>,
                    n2: seq<Inode>, b2: seq<Block>, i: nat)
    requires OthersSame(n0, b0, n1, b1, i) && OthersSame(n1, b1, n2, b2, i)
    ensures OthersSame(n0, b0, n2, b2, i)
  {
    hide RefAt;
    forall j | 0 <= j < |n0| && j != i ensures SameFile(n0, b0, n2, b2, j) {
      assert SameFile(n0, b0, n1, b1, j) && SameFile(n1, b1, n2, b2, j);
      forall s | 0 <= s < SLOTS ensures SameSlot(n0, b0, n2, b2, j, s) {
        assert SameSlot(n0, b0, n1, b1, j, s) && SameSlot(n1, b1, n2, b2, j, s);
      }
    }
  }

  lemma SameFileBytes(n0: seq<Inode>, b0: seq<Block>, n1: seq<Inode>, b1: seq<Block>, j: nat, want: seq<Byte>)
    requires SameFile(n0, b0, n1, b1, j) && Holds(n0[j], b0, want)
    ensures Holds(n1[j], b1, want)
  {
    hide Ref;
    forall bn | 0 <= bn < MAXFILE && bn * BSIZE < |want|
      ensures Ref(n1[j], b1, FileSlot(bn)) == Ref(n0[j], b0, FileSlot(bn)) < |b0|
      ensures b1[Ref(n0[j], b0, FileSlot(bn))] == b0[Ref(n0[j], b0, FileSlot(bn))]
    {
      assert SameSlot(n0, b0, n1, b1, j, FileSlot(bn));
    }
    forall p | 0 <= p < |want| ensures FileByte(n1[j], b1, p) == want[p] {
      assert p / BSIZE * BSIZE <= p && p / BSIZE < MAXFILE;
      assert FileByte(n0[j], b0, p) == want[p];
    }
  }

  lemma GrownOthers(sb: Super, n0: seq<Inode>, b0: seq<Block>, o0: map<nat, Slot>,
                    n1: seq<Inode>, b1: seq<Block>, o1: map<nat, Slot>, i: nat, slots: set<nat>)
    requires Shape(sb, n0, b0) && Shape(sb, n1, b1) && i < |n0|
    requires Consistent(sb, n0, b0, o0) && Consistent(sb, n1, b1, o1)
    requires Grown(sb, n0, b0, o0, n1, b1, o1, i, slots)
    ensures OthersSame(n0, b0, n1, b1, i)
  {
    hide RefAt, Consistent;
    forall j | 0 <= j < |n0| && j != i ensures SameFile(n0, b0, n1, b1, j) {
      assert n1[j] == n0[j];
      forall s | 0 <= s < SLOTS ensures SameSlot(n0, b0, n1, b1, j, s) {
        assert RefAt(n1, b1, j, s) == RefAt(n0, b0, j, s);
        if RefAt(n0, b0, j, s) != 0 {
          RefKept(sb, n0, b0, o0, n1, b1, o1, i, slots, j, s);
        }
      }
    }
  }

  // A block that no other file refers to was stored.
  lemma StoreOthers(sb: Super, n: seq<Inode>, b: seq<Block>, o: map<nat, Slot>, i: nat, a: nat, x: Block)
    requires Shape(sb, n, b) && Consistent(sb, n, b, o) && i < |n| && a < sb.size
    requires a in o ==> o[a].0 == i
    requires SameRefs(n, b, n, b[a := x], {})
    ensures OthersSame(n, b, n, b[a := x], i)
  {
    hide RefAt, Consistent;
    var b' := b[a := x];
    forall j | 0 <= j < |n| && j != i ensures SameFile(n, b, n, b', j) {
      forall s | 0 <= s < SLOTS ensures SameSlot(n, b, n, b', j, s) {
        if RefAt(n, b, j, s) != 0 {
          RefInRange(sb, n, b, o, j, s);
        }
      }
    }
  }

  // ---- inodes on disk ----

  function DiskInode(sb: Super, b: seq<Block>, j: nat): (nd: Inode)
    requires sb.Ok() && |b| == sb.size && j < sb.ninodes
    ensures |nd.addrs| == NDIRECT + 1
  {
    IBlockBelow(sb, j);
    GetInode(b[sb.IBlock(j)], j % IPB)
  }

  lemma IBlockBelow(sb: Super, j: nat)
    requires sb.Ok() && j < sb.ninodes
    ensures 1 < sb.IBlock(j) < sb.bmapstart < sb.DataStart() <= sb.size
  {
  }

  ghost predicate DiskInodesSame(sb: Super, b0: seq<Block>, b1: seq<Block>)
    requires sb.Ok() && |b0| == sb.size && |b1| == sb.size
  {
    forall b :: 0 <= b < sb.bmapstart ==> b1[b] == b0[b]
  }

  lemma OwnedHigh(sb: Super, n: seq<Inode>, b: seq<Block>, o: map<nat, Slot>)
    requires Consistent(sb, n, b, o)
    ensures forall c :: c in o ==> sb.DataStart() <= c < sb.size
  {
    hide RefAt, BitAt;
    forall c | c in o ensures sb.DataStart() <= c < sb.size {
      assert OwnedOk(sb, n, b, o[c], c);
    }
  }

  lemma GrownDisk(sb: Super, n0: seq<Inode>, b0: seq<Block>, o0: map<nat, Slot>,
                  n1: seq<Inode>, b1: seq<Block>, o1: map<nat, Slot>, i: nat, slots: set<nat>)
    requires Shape(sb, n0, b0) && Shape(sb, n1, b1) && i < |n0| && Consistent(sb, n1, b1, o1)
    requires Grown(sb, n0, b0, o0, n1, b1, o1, i, slots)
    ensures DiskInodesSame(sb, b0, b1)
  {
    OwnedHigh(sb, n1, b1, o1);
    hide RefAt, BitAt, Consistent;
  }

  // iupdate stores the inode; no slot, no file and no other stored inode changes.
  lemma UpdateKeeps(sb: Super, n: seq<Inode>, b: seq<Block>, o: map<nat, Slot>, i: nat)
    requires Shape(sb, n, b) && Consistent(sb, n, b, o) && i < |n|
    ensures sb.IBlock(i) < sb.size
    ensures var b' := b[sb.IBlock(i) := PutInode(b[sb.IBlock(i)], i % IPB, n[i])];
      && Consistent(sb, n, b', o) && SameRefs(n, b, n, b', {}) && OthersSame(n, b, n, b', i)
      && (forall w :: Holds(n[i], b, w) ==> Holds(n[i], b', w))
      && (forall j :: 0 <= j < sb.ninodes ==> DiskInode(sb, b', j) == if j == i then n[i] else DiskInode(sb, b, j))
  {
    hide RefAt, BitAt, PutInode, GetInode;
    var a := sb.IBlock(i);
    IBlockBelow(sb, i);
    OwnedHigh(sb, n, b, o);
    var b' := b[a := PutInode(b[a], i % IPB, n[i])];
    StoreKeeps(sb, n, b, o, {}, a, b'[a]);
    hide Own;
    StoreOthers(sb, n, b, o, i, a, b'[a]);
    forall w | Holds(n[i], b, w) ensures Holds(n[i], b', w) {
      StoreOutside(sb, n, b, o, i, a, b'[a], w);
    }
    forall j | 0 <= j < sb.ninodes ensures DiskInode(sb, b', j) == if j == i then n[i] else DiskInode(sb, b, j) {
      IBlockBelow(sb, j);
      if sb.IBlock(j) == a {
        GetPutInode(b[a], i % IPB, n[i], j % IPB);
        assert j % IPB == i % IPB ==> j == i;
      }
    }
  }

  lemma StoreOutside(sb: Super, n: seq<Inode>, b: seq<Block>, o: map<nat, Slot>, i: nat, a: nat, x: Block, w: seq<Byte>)
    requires Shape(sb, n, b) && Consistent(sb, n, b, o) && i < |n| && a < sb.size && a !in o
    requires SameRefs(n, b, n, b[a := x], {}) && Holds(n[i], b, w)
    ensures Holds(n[i], b[a := x], w)
  {
    hide RefAt, Consistent;
    var b' := b[a := x];
    forall s | 0 <= s < SLOTS ensures SameSlot(n, b, n, b', i, s) {
      if RefAt(n, b, i, s) != 0 {
        RefInRange(sb, n, b, o, i, s);
      }
    }
    SameFileBytes(n, b, n, b[a := x], i, w);
  }

  // ---- the blocks a write logs ----

  // The number of the file block in a slot other than the indirect block's.
  function BlockOf(s: nat): nat { if s < NDIRECT then s else s - 1 }

  // Logged were only free-map blocks, the block of inode i, its indirect block and its file
  // blocks lo .. hi - 1.
  ghost predicate LoggedFor(sb: Super, o: map<nat, Slot>, l0: set<nat>, l1: set<nat>, i: nat, lo: nat, hi: nat) {
    l0 <= l1 && forall b :: b in l1 ==> b in l0 || Loggable(sb, o, i, lo, hi, b)
  }

  predicate Loggable(sb: Super, o: map<nat, Slot>, i: nat, lo: nat, hi: nat, b: nat) {
    || sb.IsBitmap(b) || b == sb.IBlock(i)
    || (b in o && o[b].0 == i && (o[b].1 == NDIRECT || lo <= BlockOf(o[b].1) < hi))
  }

  // bmap found block r for file block bn, and log_write(r) followed.
  lemma LoggedGrow(sb: Super, nd: Inode, o0: map<nat, Slot>, o1: map<nat, Slot>, i: nat,
                   l0: set<nat>, l1: set<nat>, l2: set<nat>, lo: nat, hi: nat, bn: nat, r: nat)
    requires |nd.addrs| == NDIRECT + 1 && lo <= bn && hi <= bn + 1
    requires forall b :: b in o0 ==> b in o1 && o1[b] == o0[b]
    requires r in o1 && o1[r] == (i, FileSlot(bn))
    requires bn >= NDIRECT ==> nd.addrs[NDIRECT] in o1 && o1[nd.addrs[NDIRECT]] == (i, NDIRECT)
    requires LoggedFor(sb, o0, l0, l1, i, lo, hi)
    requires OnlyLogged(sb, l1, l2, MapBlocks(nd, bn, r))
    ensures LoggedFor(sb, o1, l0, l2 + {r}, i, lo, bn + 1)
  {
    forall b | b in l2 + {r} ensures b in l0 || Loggable(sb, o1, i, lo, bn + 1, b) {
      if b in l1 && b !in l0 {
        assert Loggable(sb, o0, i, lo, hi, b);
      }
    }
  }

  // ---- a file write under way ----

  // Since (n0, b0, l0) only file i changed: it now reads as want, and only its own blocks were logged.
  ghost predicate Wrote(sb: Super, n0: seq<Inode>, b0: seq<Block>, l0: set<nat>,
                        n1: seq<Inode>, b1: seq<Block>, o1: map<nat, Slot>, l1: set<nat>,
                        i: nat, want: seq<Byte>, lo: nat, hi: nat)
    requires Shape(sb, n0, b0) && Shape(sb, n1, b1)
  {
    && |n1| == |n0| && i < |n0| && n1[i] == n0[i].(addrs := n1[i].addrs)
    && Holds(n1[i], b1, want)
    && OthersSame(n0, b0, n1, b1, i) && DiskInodesSame(sb, b0, b1)
    && LoggedFor(sb, o1, l0, l1, i, lo, hi)
  }

  // The slots and data that bmap leaves are those of the same file.
  lemma WroteGrown(sb: Super, n0: seq<Inode>, b0: seq<Block>, l0: set<nat>,
                   n1: seq<Inode>, b1: seq<Block>, o1: map<nat, Slot>, l1: set<nat>,
                   n2: seq<Inode>, b2: seq<Block>, o2: map<nat, Slot>, l2: set<nat>,
                   i: nat, want: seq<Byte>, lo: nat, hi: nat, bn: nat, r: nat)
    requires Shape(sb, n0, b0) && Shape(sb, n1, b1) && Shape(sb, n2, b2)
    requires Wrote(sb, n0, b0, l0, n1, b1, o1, l1, i, want, lo, hi)
    requires Consistent(sb, n1, b1, o1) && Consistent(sb, n2, b2, o2)
    requires bn < MAXFILE && Grown(sb, n1, b1, o1, n2, b2, o2, i, {FileSlot(bn), NDIRECT})
    requires |n2| == |n1| && r == RefAt(n2, b2, i, FileSlot(bn)) != 0 && lo <= bn && hi <= bn + 1
    requires OnlyLogged(sb, l1, l2, MapBlocks(n2[i], bn, r))
    ensures Wrote(sb, n0, b0, l0, n2, b2, o2, l2 + {r}, i, want, lo, bn + 1)
  {
    GrownFacts(sb, n1, b1, o1, n2, b2, o2, i, {FileSlot(bn), NDIRECT});
    assert bn >= NDIRECT ==> n2[i].addrs[NDIRECT] != 0;
    AddrValue(sb, n2, b2, i, NDIRECT);
    hide RefAt, Consistent, Grown, OthersSame, DiskInodesSame, Holds, LoggedFor, OnlyLogged;
    GrownHolds(sb, n1, b1, o1, n2, b2, o2, i, {FileSlot(bn), NDIRECT}, i, want);
    GrownOthers(sb, n1, b1, o1, n2, b2, o2, i, {FileSlot(bn), NDIRECT});
    OthersTrans(n0, b0, n1, b1, n2, b2, i);
    GrownDisk(sb, n1, b1, o1, n2, b2, o2, i, {FileSlot(bn), NDIRECT});
    DiskTrans(sb, b0, b1, b2);
    RefInRange(sb, n2, b2, o2, i, FileSlot(bn));
    if bn >= NDIRECT {
      RefInRange(sb, n2, b2, o2, i, NDIRECT);
    }
    LoggedGrow(sb, n2[i], o1, o2, i, l0, l1, l2, lo, hi, bn, r);
  }

  lemma GrownFacts(sb: Super, n1: seq<Inode>, b1: seq<Block>, o1: map<nat, Slot>,
                   n2: seq<Inode>, b2: seq<Block>, o2: map<nat, Slot>, i: nat, slots: set<nat>)
    requires Shape(sb, n1, b1) && Shape(sb, n2, b2) && i < |n1|
    requires Grown(sb, n1, b1, o1, n2, b2, o2, i, slots)
    ensures |n2| == |n1| && n2[i] == n1[i].(addrs := n2[i].addrs)
    ensures forall b :: b in o1 ==> b in o2 && o2[b] == o1[b]
  {
    hide RefAt;
  }

  lemma DiskTrans(sb: Super, b0: seq<Block>, b1: seq<Block>, b2: seq<Block>)
    requires sb.Ok() && |b0| == sb.size && |b1| == sb.size && |b2| == sb.size
    requires DiskInodesSame(sb, b0, b1) && DiskInodesSame(sb, b1, b2)
    ensures DiskInodesSame(sb, b0, b2)
  {
  }

  // Bytes are copied into a block of the file.
  lemma WroteStored(sb: Super, n0: seq<Inode>, b0: seq<Block>, l0: set<nat>,
                    n: seq<Inode>, b: seq<Block>, o: map<nat, Slot>, l: set<nat>,
                    i: nat, want: seq<Byte>, lo: nat, hi: nat, bn: nat, d: nat, piece: seq<Byte>)
    requires Shape(sb, n0, b0) && Shape(sb, n, b) && Consistent(sb, n, b, o)
    requires Wrote(sb, n0, b0, l0, n, b, o, l, i, want, lo, hi)
    requires bn < MAXFILE && RefAt(n, b, i, FileSlot(bn)) != 0
    requires d < BSIZE && d + |piece| <= BSIZE && bn * BSIZE + d <= |want|
    ensures var a := RefAt(n, b, i, FileSlot(bn));
      && a < sb.size && var b' := b[a := Splice(b[a], d, piece)];
      && Consistent(sb, n, b', o)
      && Wrote(sb, n0, b0, l0, n, b', o, l, i, Splice(want, bn * BSIZE + d, piece), lo, hi)
  {
    hide RefAt, Consistent, OthersSame, DiskInodesSame, Holds, LoggedFor;
    var a := RefAt(n, b, i, FileSlot(bn));
    RefInRange(sb, n, b, o, i, FileSlot(bn));
    var b' := b[a := Splice(b[a], d, piece)];
    StoreHolds(sb, n, b, o, i, bn, d, piece, want);
    StoreOthers(sb, n, b, o, i, a, b'[a]);
    OthersTrans(n0, b0, n, b, n, b', i);
    StoreDisk(sb, b, a, b'[a]);
    DiskTrans(sb, b0, b, b');
  }

  lemma StoreDisk(sb: Super, b: seq<Block>, a: nat, x: Block)
    requires sb.Ok() && |b| == sb.size && sb.DataStart() <= a < sb.size
    ensures DiskInodesSame(sb, b, b[a := x])
  {
  }

  lemma WroteStart(sb: Super, n: seq<Inode>, b: seq<Block>, o: map<nat, Slot>, l: set<nat>, i: nat, lo: nat, hi: nat)
    requires Shape(sb, n, b) && i < |n| && NoHoles(n[i], b)
    ensures Wrote(sb, n, b, l, n, b, o, l, i, Content(n[i], b), lo, hi)
  {
    hide RefAt, MappedTo;
    HoldsContent(n[i], b);
    OthersRefl(sb, n, b, i);
  }

  // Where writei's loop stands before and after a turn.
  lemma Turn(off: nat, o: nat, m: nat)
    requires off <= o && 0 < m <= BSIZE - o % BSIZE
    ensures o == o / BSIZE * BSIZE + o % BSIZE && off / BSIZE <= o / BSIZE
    ensures (o + BSIZE - 1) / BSIZE <= o / BSIZE + 1 && (o + m + BSIZE - 1) / BSIZE == o / BSIZE + 1
    ensures o + m <= MAXBYTES ==> o / BSIZE < MAXFILE
  {
  }

  lemma MappedBelow(n: seq<Inode>, b: seq<Block>, i: nat, want: seq<Byte>, bn: nat)
    requires i < |n| && Holds(n[i], b, want) && bn < MAXFILE && bn * BSIZE < |want|
    ensures RefAt(n, b, i, FileSlot(bn)) != 0
  {
  }

  // ---- the end of a write ----

  ghost predicate Synced(sb: Super, n: seq<Inode>, b: seq<Block>, j: nat)
    requires sb.Ok() && |b| == sb.size && |n| == sb.ninodes && j < |n|
  {
    DiskInode(sb, b, j) == n[j]
  }

  // Inodes whose disk copy was up to date still have one that is.
  ghost predicate KeepsSynced(sb: Super, n0: seq<Inode>, b0: seq<Block>, n1: seq<Inode>, b1: seq<Block>)
    requires sb.Ok() && |b0| == sb.size && |n0| == sb.ninodes && |b1| == sb.size && |n1| == sb.ninodes
  {
    forall j :: 0 <= j < |n0| && Synced(sb, n0, b0, j) ==> Synced(sb, n1, b1, j)
  }

  lemma DiskKeepsSynced(sb: Super, n: seq<Inode>, b0: seq<Block>, b1: seq<Block>)
    requires Shape(sb, n, b0) && Shape(sb, n, b1) && DiskInodesSame(sb, b0, b1)
    ensures KeepsSynced(sb, n, b0, n, b1)
  {
    hide GetInode;
    forall j | 0 <= j < |n| ensures DiskInode(sb, b0, j) == DiskInode(sb, b1, j) {
      IBlockBelow(sb, j);
    }
  }

  // The size of file i changes: slots, bits and data stay.
  lemma SizeKeeps(sb: Super, n: seq<Inode>, b: seq<Block>, o: map<nat, Slot>, i: nat, size: Word)
    requires Shape(sb, n, b) && Consistent(sb, n, b, o) && i < |n|
    ensures var n' := n[i := n[i].(size := size)];
      Consistent(sb, n', b, o) && OthersSame(n, b, n', b, i) && (forall w :: Holds(n[i], b, w) ==> Holds(n'[i], b, w))
  {
    var n' := n[i := n[i].(size := size)];
    assert SameRefs(n, b, n', b, {});
    forall w | Holds(n[i], b, w) ensures Holds(n'[i], b, w) {
      forall p | 0 <= p < |w| ensures FileByte(n'[i], b, p) == w[p] {
        assert FileByte(n[i], b, p) == w[p];
      }
    }
    OwnSame(sb, n, b, n', b, o, {}, {});
    hide Ref;
    forall j | 0 <= j < |n| && j != i ensures SameFile(n, b, n', b, j) {
    }
  }

  // The grown size is stored with iupdate.
  lemma FinishGrown(sb: Super, n0: seq<Inode>, b0: seq<Block>, l0: set<nat>,
                    n: seq<Inode>, b: seq<Block>, o: map<nat, Slot>, l: set<nat>,
                    i: nat, want: seq<Byte>, lo: nat, hi: nat)
    requires Shape(sb, n0, b0) && Shape(sb, n, b) && Consistent(sb, n, b, o)
    requires Wrote(sb, n0, b0, l0, n, b, o, l, i, want, lo, hi) && |want| < TWO32
    ensures var n' := n[i := n[i].(size := |want|)]; var a := sb.IBlock(i);
      && a < sb.size && var b' := b[a := PutInode(b[a], i % IPB, n'[i])];
      && Shape(sb, n', b) && Consistent(sb, n', b, o) && Consistent(sb, n', b', o) && OthersSame(n0, b0, n', b', i)
      && NoHoles(n'[i], b') && Content(n'[i], b') == want
      && KeepsSynced(sb, n0, b0, n', b') && Synced(sb, n', b', i)
      && LoggedFor(sb, o, l0, l + {a}, i, lo, hi)
  {
    hide RefAt, Consistent, Holds, MappedTo, PutInode, GetInode, OthersSame, Content, DiskInode;
    var n' := n[i := n[i].(size := |want|)];
    var a := sb.IBlock(i);
    SizeKeeps(sb, n, b, o, i, |want|);
    UpdateKeeps(sb, n', b, o, i);
    var b' := b[a := PutInode(b[a], i % IPB, n'[i])];
    assert Holds(n'[i], b', want);
    HoldsContent(n'[i], b');
    OthersTrans(n0, b0, n, b, n', b, i);
    OthersTrans(n0, b0, n', b, n', b', i);
    FinishSynced(sb, n0, b0, n, b, n', b', i);
  }

  lemma FinishSynced(sb: Super, n0: seq<Inode>, b0: seq<Block>, n: seq<Inode>, b: seq<Block>,
                     n': seq<Inode>, b': seq<Block>, i: nat)
    requires Shape(sb, n0, b0) && Shape(sb, n, b) && Shape(sb, n', b') && i < |n0|
    requires DiskInodesSame(sb, b0, b) && OthersSame(n0, b0, n', b', i)
    requires forall j :: 0 <= j < sb.ninodes ==> DiskInode(sb, b', j) == if j == i then n'[i] else DiskInode(sb, b, j)
    ensures KeepsSynced(sb, n0, b0, n', b')
  {
    hide RefAt, GetInode;
    forall j | 0 <= j < |n0| && Synced(sb, n0, b0, j) ensures Synced(sb, n', b', j) {
      IBlockBelow(sb, j);
      if j != i {
        assert SameFile(n0, b0, n', b', j);
      }
    }
  }

  // Nothing grew: the size and the inode are as before.
  lemma FinishKept(sb: Super, n0: seq<Inode>, b0: seq<Block>, l0: set<nat>,
                   n: seq<Inode>, b: seq<Block>, o: map<nat, Slot>, l: set<nat>,
                   i: nat, want: seq<Byte>, lo: nat, hi: nat)
    requires Shape(sb, n0, b0) && Shape(sb, n, b)
    requires Wrote(sb, n0, b0, l0, n, b, o, l, i, want, lo, hi) && n == n0 && |want| == n[i].size
    ensures NoHoles(n[i], b) && Content(n[i], b) == want
    ensures OthersSame(n0, b0, n, b, i) && KeepsSynced(sb, n0, b0, n, b)
    ensures LoggedFor(sb, o, l0, l, i, lo, hi)
  {
    hide RefAt, Holds, MappedTo, OthersSame, Content, DiskInode;
    HoldsContent(n[i], b);
    DiskKeepsSynced(sb, n, b0, b);
  }

  lemma WroteHolds(sb: Super, n0: seq<Inode>, b0: seq<Block>, l0: set<nat>,
                   n: seq<Inode>, b: seq<Block>, o: map<nat, Slot>, l: set<nat>,
                   i: nat, want: seq<Byte>, lo: nat, hi: nat, bn: nat)
    requires Shape(sb, n0, b0) && Shape(sb, n, b) && bn < MAXFILE
    requires Wrote(sb, n0, b0, l0, n, b, o, l, i, want, lo, hi)
    ensures i < |n| && (bn * BSIZE < |want| ==> RefAt(n, b, i, FileSlot(bn)) != 0)
    ensures |n| == |n0| && n[i] == n0[i].(addrs := n[i].addrs)
  {
    hide RefAt, Holds, OthersSame;
    if bn * BSIZE < |want| {
      MappedBelow(n, b, i, want, bn);
    }
  }

  // ---- whole operations ----

  // The inodes stored on the disk.
  function NodesUpTo(sb: Super, b: seq<Block>, n: nat): (r: seq<Inode>)
    requires sb.Ok() && |b| == sb.size && n <= sb.ninodes
    ensures |r| == n && forall j :: 0 <= j < n ==> r[j] == DiskInode(sb, b, j)
  {
    if n == 0 then [] else NodesUpTo(sb, b, n - 1) + [DiskInode(sb, b, n - 1)]
  }

  function Nodes(sb: Super, b: seq<Block>): (r: seq<Inode>)
    requires sb.Ok() && |b| == sb.size
    ensures |r| == sb.ninodes && forall j :: 0 <= j < sb.ninodes ==> r[j] == DiskInode(sb, b, j)
  {
    NodesUpTo(sb, b, sb.ninodes)
  }

  lemma NodesSame(sb: Super, b: seq<Block>, b': seq<Block>)
    requires sb.Ok() && |b| == sb.size && |b'| == sb.size && DiskInodesSame(sb, b, b')
    ensures Nodes(sb, b') == Nodes(sb, b)
  {
    hide GetInode;
    forall j | 0 <= j < sb.ninodes ensures DiskInode(sb, b', j) == DiskInode(sb, b, j) {
      IBlockBelow(sb, j);
    }
  }

  // Between operations: the free map agrees with the slots, and every inode is up to date on disk.
  ghost predicate Settled(sb: Super, n: seq<Inode>, b: seq<Block>) {
    Shape(sb, n, b) && n == Nodes(sb, b) && exists own :: Consistent(sb, n, b, own)
  }

  // Only blocks of l changed.
  ghost predicate Stored(b0: seq<Block>, b1: seq<Block>, l: set<nat>) {
    |b1| == |b0| && forall c :: 0 <= c < |b0| && c !in l ==> b1[c] == b0[c]
  }

  // No block of l belongs to the log or lies below it.
  ghost predicate Above(sb: Super, l: set<nat>) {
    forall c :: c in l ==> sb.inodestart <= c < sb.size
  }

  // What an operation that logged the blocks l does to inodes and blocks.
  ghost predicate OpStep(sb: Super, n0: seq<Inode>, b0: seq<Block>, n1: seq<Inode>, b1: seq<Block>, l: set<nat>) {
    Stored(b0, b1, l) && Above(sb, l) && (Settled(sb, n0, b0) ==> Settled(sb, n1, b1))
  }

  lemma OpBegins(sb: Super, n: seq<Inode>, b: seq<Block>)
    ensures OpStep(sb, n, b, n, b, {})
  {
  }

  lemma AllSynced(sb: Super, n0: seq<Inode>, b0: seq<Block>, n1: seq<Inode>, b1: seq<Block>)
    requires Shape(sb, n0, b0) && Shape(sb, n1, b1) && KeepsSynced(sb, n0, b0, n1, b1) && n0 == Nodes(sb, b0)
    ensures n1 == Nodes(sb, b1)
  {
    hide DiskInode;
    forall j | 0 <= j < |n0| ensures n1[j] == DiskInode(sb, b1, j) {
      assert Synced(sb, n0, b0, j);
    }
  }

  // One more call within an operation.
  lemma OpGoesOn(sb: Super, n0: seq<Inode>, b0: seq<Block>, n1: seq<Inode>, b1: seq<Block>, l1: set<nat>,
                 n2: seq<Inode>, b2: seq<Block>, o2: map<nat, Slot>, l2: set<nat>)
    requires OpStep(sb, n0, b0, n1, b1, l1) && Shape(sb, n1, b1) && Shape(sb, n2, b2) && Consistent(sb, n2, b2, o2)
    requires Stored(b0, b2, l2) && Above(sb, l2) && KeepsSynced(sb, n1, b1, n2, b2)
    ensures OpStep(sb, n0, b0, n2, b2, l2)
  {
    hide Consistent, KeepsSynced, Nodes;
    if Settled(sb, n0, b0) {
      AllSynced(sb, n1, b1, n2, b2);
    }
  }

  // The blocks that a write logs.
  lemma LoggedAbove(sb: Super, n: seq<Inode>, b: seq<Block>, o: map<nat, Slot>, l0: set<nat>, l1: set<nat>, i: nat, lo: nat, hi: nat)
    requires Shape(sb, n, b) && Consistent(sb, n, b, o) && i < |n| && Above(sb, l0) && LoggedFor(sb, o, l0, l1, i, lo, hi)
    ensures Above(sb, l1)
  {
    hide Consistent;
    OwnedHigh(sb, n, b, o);
    IBlockBelow(sb, i);
    forall c | c in l1 ensures sb.inodestart <= c < sb.size {
      if c !in l0 { assert Loggable(sb, o, i, lo, hi, c); }
    }
  }

  // The blocks that itrunc logs.
  lemma FreedAbove(sb: Super, l0: set<nat>, l1: set<nat>, i: nat)
    requires sb.Ok() && i < sb.ninodes && Above(sb, l0) && OnlyLogged(sb, l0, l1, {sb.IBlock(i)})
    ensures Above(sb, l1)
  {
    IBlockBelow(sb, i);
  }

  // What is there after an operation, and the blocks it logged.
  datatype Op = Op(nodes: seq<Inode>, blk: seq<Block>, logged: set<nat>)

  function AfterOps(v: Op, ops: seq<Op>): Op {
    if ops == [] then v else ops[|ops| - 1]
  }

  // Operations one after the other, the first from v.
  ghost predicate OpsRun(sb: Super, v: Op, ops: seq<Op>) {
    ops == [] ||
    (var front, op := ops[..|ops| - 1], ops[|ops| - 1];
     var u := AfterOps(v, front);
     OpsRun(sb, v, front) && OpStep(sb, u.nodes, u.blk, op.nodes, op.blk, op.logged))
  }

  lemma NoOps(sb: Super, v: Op)
    ensures OpsRun(sb, v, []) && AfterOps(v, []) == v
  {
  }

  lemma OneMoreOp(sb: Super, v: Op, ops: seq<Op>, op: Op)
    requires OpsRun(sb, v, ops)
    requires var u := AfterOps(v, ops); OpStep(sb, u.nodes, u.blk, op.nodes, op.blk, op.logged)
    ensures OpsRun(sb, v, ops + [op]) && AfterOps(v, ops + [op]) == op
  {
    assert (ops + [op])[..|ops|] == ops;
  }
}
