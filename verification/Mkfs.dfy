// Building the first file system image (mkfs.c).
module Mkfs {
  import opened Params
  import opened Blocks
  import opened Bits
  import opened FsState
  import opened FsGrow
  import opened FileBytes
  import opened Dinode
  import opened FileFrame
  import opened MkfsImage
  import LR = LogRecovery
  import CrashFiles

  const ROOTINO: nat := 1
  const T_DIR: Half := 1
  const T_FILE: Half := 2
  const DIRSIZ: nat := 14
  const DIRENT: nat := 16

  // struct dirent: a 16-bit inode number and a name cut to 14 bytes or padded with zeros.
  function Entry(inum: Half, name: seq<Byte>): (e: seq<Byte>)
    ensures |e| == DIRENT
  {
    [inum % 0x100, inum / 0x100] + (name + Zeroes(DIRSIZ))[..DIRSIZ]
  }

  // ".", ".." and one entry for each file, the first of which is inode 2.
  function RootEntries(names: seq<seq<Byte>>): (e: seq<Byte>)
    requires |names| + 1 < 0x1_0000
    ensures |e| == DIRENT * (|names| + 2)
  {
    if names == [] then Entry(ROOTINO, [46]) + Entry(ROOTINO, [46, 46])
    else RootEntries(names[..|names| - 1]) + Entry(|names| + 1, names[|names| - 1])
  }

  lemma NextEntry(names: seq<seq<Byte>>, i: nat)
    requires i < |names| && |names| + 1 < 0x1_0000
    ensures RootEntries(names[..i + 1]) == RootEntries(names[..i]) + Entry(i + 2, names[i])
  {
    assert names[..i + 1][..i] == names[..i];
  }

  // Entry k of a directory: a little-endian inode number, and a name cut to 14 bytes or padded with zeros.
  predicate EntryAt(w: seq<Byte>, k: nat, inum: nat, name: seq<Byte>) {
    && DIRENT * (k + 1) <= |w| && inum == w[DIRENT * k] as int + 0x100 * w[DIRENT * k + 1] as int
    && forall j :: 0 <= j < DIRSIZ ==> w[DIRENT * k + 2 + j] == if j < |name| then name[j] else 0
  }

  // ".", ".." and the files, the k-th of which has inode k + 2.
  predicate Lists(w: seq<Byte>, names: seq<seq<Byte>>) {
    && |w| == DIRENT * (|names| + 2) && EntryAt(w, 0, ROOTINO, [46]) && EntryAt(w, 1, ROOTINO, [46, 46])
    && forall k :: 0 <= k < |names| ==> EntryAt(w, k + 2, k + 2, names[k])
  }

  lemma EntryMeans(inum: Half, name: seq<Byte>)
    ensures EntryAt(Entry(inum, name), 0, inum, name)
  {
    var padded := name + Zeroes(DIRSIZ);
    assert forall j :: 0 <= j < DIRSIZ ==> padded[..DIRSIZ][j] == if j < |name| then name[j] else 0;
  }

  lemma EntryAppended(w: seq<Byte>, e: seq<Byte>, n: nat, inum: nat, name: seq<Byte>, k: nat, i: nat, x: seq<Byte>)
    requires |w| == DIRENT * n && |e| == DIRENT && EntryAt(e, 0, inum, name)
    ensures EntryAt(w + e, n, inum, name)
    ensures EntryAt(w, k, i, x) ==> EntryAt(w + e, k, i, x)
  {
    var t := w + e;
    assert forall j :: 0 <= j < DIRENT ==> t[DIRENT * n + j] == e[j];
    if EntryAt(w, k, i, x) {
      assert t[..|w|] == w;
    }
  }

  // The root directory lists every file under its name.
  lemma {:induction false} RootLists(names: seq<seq<Byte>>)
    requires |names| + 1 < 0x1_0000
    ensures Lists(RootEntries(names), names)
  {
    hide Entry, EntryAt;
    if names == [] {
      var dot, dots := Entry(ROOTINO, [46]), Entry(ROOTINO, [46, 46]);
      EntryMeans(ROOTINO, [46]);
      EntryMeans(ROOTINO, [46, 46]);
      EntryAppended(dot, dots, 1, ROOTINO, [46, 46], 0, ROOTINO, [46]);
    } else {
      var n := |names| - 1;
      var front, e := names[..n], Entry(n + 2, names[n]);
      RootLists(front);
      var w := RootEntries(front);
      EntryMeans(n + 2, names[n]);
      EntryAppended(w, e, n + 2, n + 2, names[n], 0, ROOTINO, [46]);
      EntryAppended(w, e, n + 2, n + 2, names[n], 1, ROOTINO, [46, 46]);
      forall k | 0 <= k < |names| ensures EntryAt(w + e, k + 2, k + 2, names[k]) {
        if k < n {
          assert front[k] == names[k];
          EntryAppended(w, e, n + 2, n + 2, names[n], k + 2, k + 2, names[k]);
        }
      }
    }
  }

  // Inode i has the type and one link.
  predicate Kind(n: seq<Inode>, i: nat, typ: Half) { i < |n| && n[i].typ == typ && n[i].nlink == 1 }

  ghost predicate SameKinds(n0: seq<Inode>, n1: seq<Inode>) {
    |n1| == |n0| && forall j :: 0 <= j < |n0| ==> n1[j].typ == n0[j].typ && n1[j].nlink == n0[j].nlink
  }

  lemma KindsTrans(n0: seq<Inode>, n1: seq<Inode>, n2: seq<Inode>)
    requires SameKinds(n0, n1) && SameKinds(n1, n2)
    ensures SameKinds(n0, n2)
  {
  }

  // The root directory, and files up to inode count - 1.
  ghost predicate KindsUpTo(n: seq<Inode>, count: nat) {
    Kind(n, ROOTINO, T_DIR) && forall j :: ROOTINO < j < count ==> Kind(n, j, T_FILE)
  }

  lemma KindKept(n0: seq<Inode>, n1: seq<Inode>, n2: seq<Inode>)
    requires SameKinds(n0, n1) && SameKinds(n1, n2) && Kind(n0, ROOTINO, T_DIR)
    ensures KindsUpTo(n2, ROOTINO + 1)
  {
  }

  lemma KindsMore(n0: seq<Inode>, n1: seq<Inode>, i: nat)
    requires ROOTINO < i < |n0| && KindsUpTo(n0, i) && SameKinds(n0[i := NewInode(T_FILE, 1)], n1)
    ensures KindsUpTo(n1, i + 1)
  {
    forall j | ROOTINO < j < i + 1 ensures Kind(n1, j, T_FILE) {
      assert j < i ==> Kind(n0, j, T_FILE);
    }
  }

  // A directory's size as mkfs leaves it.
  function Rounded(len: nat): nat { (len / BSIZE + 1) * BSIZE }

  lemma KindsSized(n0: seq<Inode>, count: nat, d: Inode)
    requires KindsUpTo(n0, count) && d == n0[ROOTINO].(size := d.size)
    ensures KindsUpTo(n0[ROOTINO := d], count)
  {
    var n1 := n0[ROOTINO := d];
    forall j | ROOTINO < j < count ensures Kind(n1, j, T_FILE) {
      assert Kind(n0, j, T_FILE);
    }
  }

  lemma KindsPut(sb: Super, b: seq<Block>, i: nat, d: Inode, n0: seq<Inode>)
    requires sb.Ok() && |b| == sb.size && i < sb.ninodes && |d.addrs| == NDIRECT + 1
    requires n0 == Nodes(sb, b) && d.typ == n0[i].typ && d.nlink == n0[i].nlink
    ensures sb.IBlock(i) < sb.size
    ensures SameKinds(n0, Nodes(sb, b[sb.IBlock(i) := PutInode(b[sb.IBlock(i)], i % IPB, d)]))
  {
    IBlockBelow(sb, i);
    var b' := b[sb.IBlock(i) := PutInode(b[sb.IBlock(i)], i % IPB, d)];
    hide PutInode, GetInode, Nodes;
    forall j | 0 <= j < sb.ninodes ensures Nodes(sb, b')[j] == if j == i then d else n0[j] {
      IBlockBelow(sb, j);
      GetPutInode(b[sb.IBlock(i)], i % IPB, d, j % IPB);
    }
  }

  lemma AppendKinds(sb: Super, n0: seq<Inode>, b0: seq<Block>, b: seq<Block>, m: seq<Block>, own: map<nat, Slot>, i: nat, d: Inode,
                    want: seq<Byte>, log: set<nat>, off: Word)
    requires sb.Ok() && |b| == sb.size && i < sb.ninodes && |d.addrs| == NDIRECT + 1 && n0 == Nodes(sb, b)
    requires Shape(sb, n0, b0) && Shape(sb, n0[i := d], m)
    requires Wrote(sb, n0, b0, {}, n0[i := d], m, own, log, i, want, 0, (|want| + BSIZE - 1) / BSIZE)
    ensures sb.IBlock(i) < sb.size
    ensures SameKinds(n0, Nodes(sb, b[sb.IBlock(i) := PutInode(b[sb.IBlock(i)], i % IPB, d.(size := off))]))
  {
    hide Nodes, PutInode, Wrote, SameKinds;
    WroteHolds(sb, n0, b0, {}, n0[i := d], m, own, log, i, want, 0, (|want| + BSIZE - 1) / BSIZE, 0);
    KindsPut(sb, b, i, d.(size := off), n0);
  }

  // File i is added under a name.
  function WithFile(w: seq<seq<Byte>>, i: Half, name: seq<Byte>, file: seq<Byte>): seq<seq<Byte>>
    requires ROOTINO < i < |w|
  {
    w[ROOTINO := w[ROOTINO] + Entry(i, name)][i := file]
  }

  // The files while one of them is copied in.
  lemma PieceNone(f: seq<seq<Byte>>, i: nat, file: seq<Byte>)
    requires i < |f| && f[i] == []
    ensures f[i := file[..0]] == f
  {
  }

  lemma PieceMore(f: seq<seq<Byte>>, i: nat, file: seq<Byte>, tot: nat, cc: nat)
    requires i < |f| && tot + cc <= |file|
    ensures var g := f[i := file[..tot]]; g[i := g[i] + file[tot..tot + cc]] == f[i := file[..tot + cc]]
    ensures |f[i := file[..tot]][i]| + cc <= |file|
  {
    assert file[..tot] + file[tot..tot + cc] == file[..tot + cc];
  }

  lemma RootFiles(f: seq<seq<Byte>>)
    requires |f| > ROOTINO
    ensures var g := f[ROOTINO := []];
      var h := g[ROOTINO := g[ROOTINO] + Entry(ROOTINO, [46])];
      && |g[ROOTINO]| == 0 && |h[ROOTINO]| == DIRENT
      && h[ROOTINO := h[ROOTINO] + Entry(ROOTINO, [46, 46])] == f[ROOTINO := RootEntries([])]
  {
    hide Entry;
    assert [] + Entry(ROOTINO, [46]) == Entry(ROOTINO, [46]);
  }

  lemma FilesSettled(sb: Super, b: seq<Block>)
    requires CrashFiles.FilesOk(sb, b)
    ensures Settled(sb, Nodes(sb, b), b)
  {
    hide Own, DiskInode;
  }

  class Image {
    const sb: Super
    var blk: seq<Block>            // the sectors of the image
    var freeinode: nat
    var freeblock: nat
    ghost var own: map<nat, Slot>
    ghost var texts: seq<seq<Byte>>      // the bytes of each file

    // The image with inode n[i] possibly still in memory.
    ghost predicate Work(n: seq<Inode>)
      reads this`blk, this`freeblock, this`own
    {
      Sound(sb, n, blk, freeblock, own)
    }

    // The image as balloc(freeblock) would leave it.
    ghost function Final(): (b: seq<Block>)
      reads this`blk, this`freeblock
      requires sb.Ok() && |blk| == sb.size && freeblock <= sb.size
      ensures |b| == sb.size
    {
      Marked(sb, blk, freeblock)
    }

    ghost predicate Valid()
      reads this
    {
      && sb.Ok() && |blk| == sb.size && |texts| == sb.ninodes && freeinode <= |texts|
      && Built(sb, blk, freeblock, own, freeinode, texts)
    }

    // The boot block, the super block, an empty log and blank inodes.
    constructor (super: Super, superblock: Block)
      requires super.Ok() && super.ninodes > 0
      ensures Valid() && sb == super && freeinode == 1 && freeblock == super.DataStart()
      ensures blk[1] == superblock && forall c :: 0 <= c < sb.size && c != 1 ==> blk[c] == ZeroBlock()
      ensures |texts| == sb.ninodes && forall j :: 0 <= j < sb.ninodes ==> texts[j] == []
    {
      hide ZeroBlock, Nodes, Marked;
      sb := super;
      blk := [];
      freeinode, freeblock := 1, super.DataStart();
      own := map[];
      new;
      while |blk| < sb.size
        invariant sb == super && freeinode == 1 && freeblock == super.DataStart() && own == map[] && |blk| <= sb.size
        invariant forall c :: 0 <= c < |blk| ==> blk[c] == ZeroBlock()
      {
        blk := blk + [ZeroBlock()];
      }
      blk := blk[1 := superblock];
      EmptyImage(sb, blk);
      PackedNew(0, 0, Final());
      texts := seq(sb.ninodes, _ => []);
    }

    // wsect of the block of inode inum with that inode changed.
    method Winode(inum: nat, d: Inode)
      requires sb.Ok() && |blk| == sb.size && inum < sb.ninodes && |d.addrs| == NDIRECT + 1
      modifies this`blk
      ensures sb.IBlock(inum) < sb.bmapstart && LowSame(sb, old(blk), blk)
      ensures blk == old(blk)[sb.IBlock(inum) := PutInode(old(blk)[sb.IBlock(inum)], inum % IPB, d)]
    {
      IBlockBelow(sb, inum);
      var bn := sb.IBlock(inum);
      LowUpdate(sb, blk, bn, PutInode(blk[bn], inum % IPB, d));
      blk := blk[bn := PutInode(blk[bn], inum % IPB, d)];
    }

    method Rinode(inum: nat) returns (d: Inode)
      requires sb.Ok() && |blk| == sb.size && inum < sb.ninodes
      ensures d == Nodes(sb, blk)[inum]
    {
      IBlockBelow(sb, inum);
      d := GetInode(blk[sb.IBlock(inum)], inum % IPB);
    }

    // The next inode number is handed out for an empty file.
    method Ialloc(typ: Half) returns (inum: nat)
      requires Valid() && freeinode < sb.ninodes
      modifies this`blk, this`freeinode, this`texts
      ensures Valid() && inum == old(freeinode) && freeinode == inum + 1 && LowSame(sb, old(blk), blk)
      ensures inum < sb.ninodes && Nodes(sb, blk) == old(Nodes(sb, blk))[inum := NewInode(typ, 1)] && texts == old(texts)[inum := []]
    {
      hide Built, LowSame, PutInode, Nodes;
      inum := freeinode;
      AllocBuilt(sb, blk, freeblock, own, inum, texts, typ);
      freeinode := freeinode + 1;
      Winode(inum, NewInode(typ, 1));
      texts := texts[inum := []];
    }

    // An address in the in-memory inode is filled; then its sector is read, which fails beyond the image.
    method TakeAddress(inum: nat, din: Inode, s: nat) returns (ok: bool, d: Inode)
      requires sb.Ok() && |blk| == sb.size && inum < sb.ninodes && s <= NDIRECT && |din.addrs| == NDIRECT + 1
      requires Work(Nodes(sb, blk)[inum := din])
      modifies this`freeblock, this`own
      ensures freeblock >= old(freeblock) && |d.addrs| == NDIRECT + 1
      ensures !ok ==> freeblock > sb.size
      ensures ok ==>
                && freeblock <= sb.size && Work(Nodes(sb, blk)[inum := d])
                && Grown(sb, Nodes(sb, blk)[inum := din], old(Final()), old(own), Nodes(sb, blk)[inum := d], Final(), own, inum, {s})
                && 0 < d.addrs[s] < sb.size
    {
      hide Own, RefAt, Grown, Marked, MapClear, ZeroFrom;
      d := din;
      ghost var n := Nodes(sb, blk)[inum := din];
      if d.addrs[s] == 0 {
        var x := freeblock;
        freeblock := freeblock + 1;
        if x >= |blk| {
          return false, d;
        }
        d := PutAddr(d, s, x);
        TakeAddr(sb, n, blk, x, own, inum, s);
        own := own[x := (inum, s)];
        assert n[inum := d] == Nodes(sb, blk)[inum := d];
      } else {
        GrownSame(sb, n, Final(), own, inum, {s});
        AddrValue(sb, n, Final(), inum, s);
        RefInRange(sb, n, Final(), own, inum, s);
      }
      ok := true;
    }

    // An entry of the indirect block is filled and written back; then its sector is read.
    method TakeIndirect(inum: nat, din: Inode, s: nat) returns (ok: bool, x: nat)
      requires sb.Ok() && |blk| == sb.size && inum < sb.ninodes && NDIRECT < s < SLOTS && |din.addrs| == NDIRECT + 1
      requires Work(Nodes(sb, blk)[inum := din]) && din.addrs[NDIRECT] != 0
      modifies this`freeblock, this`own, this`blk
      ensures freeblock >= old(freeblock) && |blk| == sb.size
      ensures !ok ==> freeblock > sb.size
      ensures ok ==>
                && freeblock <= sb.size && Work(Nodes(sb, blk)[inum := din])
                && Nodes(sb, blk) == old(Nodes(sb, blk))
                && Grown(sb, Nodes(sb, blk)[inum := din], old(Final()), old(own), Nodes(sb, blk)[inum := din], Final(), own, inum, {s})
                && RefAt(Nodes(sb, blk)[inum := din], Final(), inum, s) == x != 0
                && LowSame(sb, old(blk), blk)
    {
      hide Own, RefAt, Grown, Marked, MapClear, ZeroFrom, GetWord, SetWord, DiskInodesSame, Nodes, LowSame;
      ghost var n := Nodes(sb, blk)[inum := din];
      var a := din.addrs[NDIRECT];
      IndirectBelow(sb, n, blk, freeblock, own, inum);
      EntryValue(sb, n, Final(), own, inum, s);
      x := GetWord(blk[a], s - NDIRECT - 1);
      if x == 0 {
        x := freeblock;
        freeblock := freeblock + 1;
        if x >= |blk| {
          return false, x;
        }
        TakeEntry(sb, n, blk, x, own, inum, s);
        var b' := blk[a := SetWord(blk[a], s - NDIRECT - 1, x)];
        NodesSame(sb, blk, b');
        LowUpdate(sb, blk, a, b'[a]);
        blk := b';
        own := own[x := (inum, s)];
      } else {
        LowRefl(sb, blk);
        GrownSame(sb, n, Final(), own, inum, {s});
      }
      ok := true;
    }

    // The sector of the fbn-th block of the file, taken from the free ones if there is none yet.
    method FindBlock(inum: nat, din: Inode, fbn: nat) returns (ok: bool, d: Inode, x: nat)
      requires sb.Ok() && |blk| == sb.size && inum < sb.ninodes && fbn < MAXFILE && |din.addrs| == NDIRECT + 1
      requires Work(Nodes(sb, blk)[inum := din])
      modifies this`freeblock, this`own, this`blk
      ensures freeblock >= old(freeblock) && |blk| == sb.size && |d.addrs| == NDIRECT + 1
      ensures !ok ==> freeblock > sb.size
      ensures ok ==>
                && freeblock <= sb.size && Work(Nodes(sb, blk)[inum := d])
                && Nodes(sb, blk) == old(Nodes(sb, blk))
                && Grown(sb, Nodes(sb, blk)[inum := din], old(Final()), old(own), Nodes(sb, blk)[inum := d], Final(), own,
                         inum, {FileSlot(fbn), NDIRECT})
                && RefAt(Nodes(sb, blk)[inum := d], Final(), inum, FileSlot(fbn)) == x != 0
                && LowSame(sb, old(blk), blk)
    {
      hide Own, RefAt, Grown, Marked, MapClear, ZeroFrom, GetWord, SetWord, DiskInodesSame, Nodes, LowSame;
      ghost var n0, b0, o0 := Nodes(sb, blk)[inum := din], Final(), own;
      if fbn < NDIRECT {
        ok, d := TakeAddress(inum, din, fbn);
        x := d.addrs[fbn];
        LowRefl(sb, blk);
        if ok {
          AddrValue(sb, n0[inum := d], Final(), inum, fbn);
          assert n0[inum := d] == Nodes(sb, blk)[inum := d];
          GrownMore(sb, n0, b0, o0, n0[inum := d], Final(), own, inum, {fbn}, {FileSlot(fbn), NDIRECT});
        }
        return;
      }
      ok, d := TakeAddress(inum, din, NDIRECT);
      x := 0;
      if ok {
        ghost var n1, b1, o1 := Nodes(sb, blk)[inum := d], Final(), own;
        ok, x := TakeIndirect(inum, d, fbn + 1);
        if ok {
          GrownTrans(sb, n0, b0, o0, n1, b1, o1, n1, Final(), own, inum, {NDIRECT}, {fbn + 1});
          assert {NDIRECT} + {fbn + 1} == {FileSlot(fbn), NDIRECT};
        }
      }
    }

    // iappend under way: since (n0, b0, low0) file inum, whose inode is din in memory, came to read as want.
    ghost predicate Mid(inum: nat, din: Inode, n0: seq<Inode>, b0: seq<Block>, low0: seq<Block>, want: seq<Byte>, log: set<nat>)
      reads this`blk, this`freeblock, this`own
    {
      && sb.Ok() && |blk| == sb.size && inum < sb.ninodes && |din.addrs| == NDIRECT + 1 && freeblock <= sb.size
      && Nodes(sb, blk) == n0 && Work(n0[inum := din]) && Shape(sb, n0, b0)
      && Wrote(sb, n0, b0, {}, n0[inum := din], Final(), own, log, inum, want, 0, (|want| + BSIZE - 1) / BSIZE)
      && Packed(din, Final(), |want|) && LowSame(sb, low0, blk)
    }

    // wsect of a sector in use that holds no indirect block: one turn of iappend's loop.
    method AppendPiece(inum: nat, din: Inode, off: nat, piece: seq<Byte>,
                       ghost n0: seq<Inode>, ghost b0: seq<Block>, ghost low0: seq<Block>, ghost want: seq<Byte>, ghost log: set<nat>)
      returns (ok: bool, d: Inode, ghost log': set<nat>)
      requires Mid(inum, din, n0, b0, low0, want, log)
      requires off == |want| && off / BSIZE < MAXFILE && 0 < |piece| <= BSIZE - off % BSIZE
      modifies this`freeblock, this`own, this`blk
      ensures !ok ==> freeblock > sb.size
      ensures ok ==> Mid(inum, d, n0, b0, low0, want + piece, log')
    {
      hide Own, RefAt, Grown, Marked, MapClear, ZeroFrom, DiskInodesSame, Nodes, Wrote, Packed, Splice, LowSame;
      ghost var n1, b1, o1 := Nodes(sb, blk)[inum := din], Final(), own;
      var fbn := off / BSIZE;
      var x;
      ok, d, x := FindBlock(inum, din, fbn);
      log' := log + {x};
      if ok {
        ghost var n, b := Nodes(sb, blk)[inum := d], Final();
        Turn(0, off, |piece|);
        PackedMore(din, b1, off, off + |piece|);
        PackedGrown(sb, n1, b1, o1, n, b, own, inum, fbn, off + |piece|);
        WroteGrown(sb, n0, b0, {}, n1, b1, o1, log, n, b, own, log, inum, want, 0, (off + BSIZE - 1) / BSIZE, fbn, x);
        WroteStored(sb, n0, b0, {}, n, b, own, log', inum, want, 0, fbn + 1, fbn, off - fbn * BSIZE, piece);
        RefInRange(sb, n, b, own, inum, FileSlot(fbn));
        StoreSlots(sb, n, blk, freeblock, own, inum, FileSlot(fbn), Splice(blk[x], off - fbn * BSIZE, piece));
        PackedRefs(sb, n, b, b[x := Splice(blk[x], off - fbn * BSIZE, piece)], inum, off + |piece|);
        LowUpdate(sb, blk, x, Splice(blk[x], off - fbn * BSIZE, piece));
        LowTrans(sb, low0, old(blk), blk);
        LowTrans(sb, low0, blk, blk[x := Splice(blk[x], off - fbn * BSIZE, piece)]);
        blk := blk[x := Splice(blk[x], off - fbn * BSIZE, piece)];
        SpliceEnd(want, piece);
      }
    }

    // The loop of iappend, from the in-memory inode din0 on.
    method AppendLoop(inum: nat, din0: Inode, p: seq<Byte>,
                      ghost n0: seq<Inode>, ghost b0: seq<Block>, ghost low0: seq<Block>, ghost w: seq<Byte>)
      returns (r: Result<()>, din: Inode, off: nat, ghost log: set<nat>)
      requires Mid(inum, din0, n0, b0, low0, w, {}) && |w| == din0.size <= MAXBYTES
      modifies this`freeblock, this`own, this`blk
      ensures r.Panic? ==> |w| + |p| > MAXBYTES || freeblock > sb.size
      ensures r.Ok? ==> Mid(inum, din, n0, b0, low0, w + p, log) && off == |w| + |p| <= MAXBYTES
    {
      hide Mid;
      log := {};
      din := din0;
      off := din.size;
      var tot := 0;
      assert w + p[..0] == w;
      while tot < |p|
        invariant tot <= |p| && off == |w| + tot && off <= MAXBYTES && Mid(inum, din, n0, b0, low0, w + p[..tot], log)
      {
        var fbn := off / BSIZE;
        if fbn >= MAXFILE {
          return Panic("fbn < MAXFILE"), din, off, log;
        }
        var n1 := if |p| - tot < (fbn + 1) * BSIZE - off then |p| - tot else (fbn + 1) * BSIZE - off;
        var ok;
        assert w + p[..tot] + p[tot..tot + n1] == w + p[..tot + n1];
        ok, din, log := AppendPiece(inum, din, off, p[tot..tot + n1], n0, b0, low0, w + p[..tot], log);
        if !ok {
          return Panic("read"), din, off, log;
        }
        off, tot := off + n1, tot + n1;
      }
      assert p[..tot] == p;
      r := Ok(());
    }

    // Append bytes to a file.  The program stops at a file that is too long and when no sector is left.
    method Iappend(inum: nat, p: seq<Byte>) returns (r: Result<()>)
      requires Valid() && inum < freeinode
      modifies this`freeblock, this`own, this`blk, this`texts
      ensures freeinode == old(freeinode) && inum < sb.ninodes
      ensures r.Panic? ==> |old(texts)[inum]| + |p| > MAXBYTES || freeblock > sb.size
      ensures r.Ok? ==>
                && Valid() && |old(texts)[inum]| + |p| <= MAXBYTES && LowSame(sb, old(blk), blk)
                && texts == old(texts)[inum := old(texts)[inum] + p]
                && SameKinds(old(Nodes(sb, blk)), Nodes(sb, blk))
    {
      hide SameKinds;
      hide Own, RefAt, Ref, Marked, MapClear, ZeroFrom, Nodes, Wrote, Packed, Content, PutInode, OthersSame, Consistent, LowSame;
      ghost var n0, b0 := Nodes(sb, blk), Final();
      assert Reads(n0, b0, inum, texts[inum]) && NeatAt(n0, b0, inum);
      var off;
      var din := Rinode(inum);
      StartAppend(sb, n0, b0, own, inum);
      LowRefl(sb, blk);
      ghost var log;
      r, din, off, log := AppendLoop(inum, din, p, n0, b0, blk, texts[inum]);
      if r.Panic? {
        return;
      }
      AppendBuilt(sb, n0, b0, blk, freeblock, own, inum, din, texts[inum] + p, log, freeinode, texts);
      ghost var b2 := blk;
      AppendKinds(sb, n0, b0, blk, Final(), own, inum, din, texts[inum] + p, log, off);
      Winode(inum, din.(size := off));
      LowTrans(sb, old(blk), b2, blk);
      texts := texts[inum := texts[inum] + p];
    }

    // The root directory's size is rounded up to whole blocks, and one more if it was whole already.
    // A directory whose entries filled their last block is then left with a hole.
    method FixRoot(root: nat)
      requires Valid() && root < freeinode
      modifies this`blk
      ensures root < sb.ninodes && |old(texts)[root]| <= MAXBYTES && LowSame(sb, old(blk), blk)
      ensures RootDone(sb, old(blk), blk, freeblock, own, texts, root,
                       old(Nodes(sb, blk))[root].(size := Rounded(|old(texts)[root]|)))
    {
      hide Built, PutInode, LowSame, RootDone;
      RootFits(sb, blk, freeblock, own, freeinode, texts, root);
      var din := Rinode(root);
      var off := (din.size / BSIZE + 1) * BSIZE;
      RootRounded(sb, blk, freeblock, own, freeinode, texts, root, din.(size := off));
      Winode(root, din.(size := off));
    }

    // The free map is written: the blocks handed out are in use.
    method Balloc() returns (r: Result<()>)
      requires sb.Ok() && |blk| == sb.size && Work(Nodes(sb, blk))
      modifies this`blk
      ensures r.Panic? <==> freeblock >= BPB
      ensures r.Ok? ==> blk == old(Final()) && Nodes(sb, blk) == old(Nodes(sb, blk)) && Consistent(sb, Nodes(sb, blk), blk, own)
      ensures r.Ok? ==> LowSame(sb, old(blk), blk)
    {
      hide SetBit, ZeroBlock, Nodes, Consistent, BitAt, Marked;
      if freeblock >= BPB {
        return Panic("used < BSIZE*8");
      }
      NoneMarked(sb, blk);
      var buf := ZeroBlock();
      var i := 0;
      while i < freeblock
        invariant blk == old(blk) && i <= freeblock <= sb.size && blk[sb.bmapstart := buf] == Marked(sb, blk, i)
      {
        MarkedStep(sb, blk, i);
        buf := SetBit(buf, i);
        i := i + 1;
      }
      NodesSame(sb, blk, Marked(sb, blk, freeblock));
      LowUpdate(sb, blk, sb.bmapstart, buf);
      blk := blk[sb.bmapstart := buf];
      r := Ok(());
    }

    // A host file is appended to file inum, one block's worth at a time.
    method CopyIn(inum: nat, file: seq<Byte>) returns (r: Result<()>)
      requires Valid() && inum < freeinode && inum < sb.ninodes && texts[inum] == []
      modifies this`freeblock, this`own, this`blk, this`texts
      ensures freeinode == old(freeinode)
      ensures r.Panic? ==> |file| > MAXBYTES || freeblock > sb.size
      ensures r.Ok? ==>
                && Valid() && LowSame(sb, old(blk), blk) && texts == old(texts)[inum := file]
                && SameKinds(old(Nodes(sb, blk)), Nodes(sb, blk))
    {
      hide Built, LowSame, Nodes;
      LowRefl(sb, blk);
      ghost var f0, low0 := texts, blk;
      r := Ok(());
      var tot := 0;
      PieceNone(f0, inum, file);
      while tot < |file|
        invariant tot <= |file| && freeinode == old(freeinode) && Valid() && r.Ok? && LowSame(sb, low0, blk)
        invariant texts == f0[inum := file[..tot]] && SameKinds(Nodes(sb, low0), Nodes(sb, blk))
      {
        var cc := if |file| - tot < BSIZE then |file| - tot else BSIZE;
        PieceMore(f0, inum, file, tot, cc);
        ghost var b1 := blk;
        r := Iappend(inum, file[tot..tot + cc]);
        if r.Panic? {
          return;
        }
        LowTrans(sb, low0, b1, blk);
        KindsTrans(Nodes(sb, low0), Nodes(sb, b1), Nodes(sb, blk));
        tot := tot + cc;
      }
      assert file[..tot] == file;
    }

    // One file: an inode, its entry in the root directory, and its bytes.
    method AddFile(name: seq<Byte>, file: seq<Byte>) returns (r: Result<()>)
      requires Valid() && ROOTINO < freeinode < sb.ninodes && freeinode < 0x1_0000
      modifies this
      ensures freeinode == old(freeinode) + 1
      ensures r.Panic? ==> |file| > MAXBYTES || |old(texts)[ROOTINO]| + DIRENT > MAXBYTES || freeblock > sb.size
      ensures r.Ok? ==>
                && Valid() && LowSame(sb, old(blk), blk)
                && texts == WithFile(old(texts), old(freeinode), name, file)
                && SameKinds(old(Nodes(sb, blk))[old(freeinode) := NewInode(T_FILE, 1)], Nodes(sb, blk))
    {
      hide Built, Entry, LowSame, Nodes, SameKinds;
      var inum := Ialloc(T_FILE);
      ghost var b1 := blk;
      r := Iappend(ROOTINO, Entry(inum, name));
      if r.Panic? {
        return;
      }
      LowTrans(sb, old(blk), b1, blk);
      ghost var n1 := Nodes(sb, b1);
      b1 := blk;
      r := CopyIn(inum, file);
      if r.Ok? {
        LowTrans(sb, old(blk), b1, blk);
        KindsTrans(n1, Nodes(sb, b1), Nodes(sb, blk));
      }
    }

    // The root directory with its entries "." and "..".
    method MakeRoot() returns (r: Result<()>)
      requires Valid() && freeinode == ROOTINO < sb.ninodes
      modifies this
      ensures freeinode == ROOTINO + 1
      ensures r.Panic? ==> freeblock > sb.size
      ensures r.Ok? ==>
                && Valid() && LowSame(sb, old(blk), blk) && texts == old(texts)[ROOTINO := RootEntries([])]
                && KindsUpTo(Nodes(sb, blk), ROOTINO + 1)
    {
      RootFiles(texts);
      hide Built, Entry, RootEntries, LowSame, Nodes, SameKinds, KindsUpTo;
      var rootino := Ialloc(T_DIR);
      ghost var b1, n1 := blk, Nodes(sb, blk);
      r := Iappend(rootino, Entry(rootino, [46]));
      if r.Panic? {
        return;
      }
      LowTrans(sb, old(blk), b1, blk);
      b1 := blk;
      r := Iappend(rootino, Entry(rootino, [46, 46]));
      if r.Panic? {
        return;
      }
      LowTrans(sb, old(blk), b1, blk);
      KindKept(n1, Nodes(sb, b1), Nodes(sb, blk));
    }

    // The root directory and all files.
    method AddAll(names: seq<seq<Byte>>, files: seq<seq<Byte>>) returns (r: Result<()>)
      requires Valid() && freeinode == ROOTINO && (forall j :: 0 <= j < sb.ninodes ==> texts[j] == [])
      requires |files| == |names| && |names| + 2 <= sb.ninodes <= 0x1_0000
      modifies this
      ensures r.Panic? ==>
                || (exists k :: 0 <= k < |files| && |files[k]| > MAXBYTES)
                || DIRENT * (|names| + 2) > MAXBYTES || freeblock > sb.size
      ensures r.Ok? ==>
                && Valid() && freeinode == |names| + 2 && LowSame(sb, old(blk), blk)
                && texts[ROOTINO] == RootEntries(names) && (forall k :: 0 <= k < |files| ==> texts[k + 2] == files[k])
                && KindsUpTo(Nodes(sb, blk), |names| + 2)
    {
      hide Built, Entry, RootEntries, Nodes, LowSame, KindsUpTo, SameKinds;
      r := MakeRoot();
      if r.Panic? {
        return;
      }
      ghost var b1 := blk;
      var i := 0;
      while i < |names|
        invariant i <= |names| && freeinode == i + 2 && Valid() && r.Ok? && LowSame(sb, old(blk), blk)
        invariant texts[ROOTINO] == RootEntries(names[..i])
        invariant forall k :: 2 <= k < i + 2 ==> texts[k] == files[k - 2]
        invariant KindsUpTo(Nodes(sb, blk), i + 2)
      {
        NextEntry(names, i);
        b1 := blk;
        r := AddFile(names[i], files[i]);
        if r.Panic? {
          return;
        }
        LowTrans(sb, old(blk), b1, blk);
        KindsMore(Nodes(sb, b1), Nodes(sb, blk), i + 2);
        i := i + 1;
      }
      assert names[..i] == names;
    }

    // The whole image.  Every file reads back as given and the free map agrees with the blocks in use;
    // the root directory lists all files, but has a hole if its entries fill whole blocks.
    method Build(names: seq<seq<Byte>>, files: seq<seq<Byte>>) returns (r: Result<()>)
      requires Valid() && freeinode == ROOTINO && (forall j :: 0 <= j < sb.ninodes ==> texts[j] == [])
      requires |files| == |names| && |names| + 2 <= sb.ninodes <= 0x1_0000
      modifies this
      ensures r.Panic? ==>
                || (exists k :: 0 <= k < |files| && |files[k]| > MAXBYTES)
                || DIRENT * (|names| + 2) > MAXBYTES || freeblock > sb.size || freeblock >= BPB
      ensures r.Ok? ==>
                && sb.Ok() && |blk| == sb.size && Consistent(sb, Nodes(sb, blk), blk, own) && LowSame(sb, old(blk), blk)
                && (forall k :: 0 <= k < |files| ==> Reads(Nodes(sb, blk), blk, k + 2, files[k]))
                && Starts(Nodes(sb, blk), blk, ROOTINO, RootEntries(names)) && Lists(RootEntries(names), names)
                && (WithoutHoles(Nodes(sb, blk), blk, ROOTINO) <==> DIRENT * (|names| + 2) % BSIZE != 0)
                && KindsUpTo(Nodes(sb, blk), |names| + 2)
                && Nodes(sb, blk)[ROOTINO].size == Rounded(DIRENT * (|names| + 2))
    {
      hide Built, Entry, RootEntries, WithoutHoles, Starts, Reads, Nodes, Consistent, Marked, LowSame, Lists, KindsUpTo, Rounded;
      r := AddAll(names, files);
      if r.Panic? {
        return;
      }
      RootLists(names);
      ghost var b1, w := blk, texts;
      FixRoot(ROOTINO);
      LowTrans(sb, old(blk), b1, blk);
      KindsSized(Nodes(sb, b1), |names| + 2, Nodes(sb, b1)[ROOTINO].(size := Rounded(|w[ROOTINO]|)));
      b1 := blk;
      r := Balloc();
      if r.Ok? {
        LowTrans(sb, old(blk), b1, blk);
        forall k | 0 <= k < |files| ensures Reads(Nodes(sb, blk), blk, k + 2, files[k]) {
          assert w[k + 2] == files[k];
        }
      }
    }
  }

  // main: a fresh image, then the files.  The kernel finds a log with nothing to redo, and inodes and a
  // free map that agree.
  method MakeImage(super: Super, superblock: Block, names: seq<seq<Byte>>, files: seq<seq<Byte>>)
    returns (img: Image, r: Result<()>)
    requires super.Ok() && |files| == |names| && |names| + 2 <= super.ninodes <= 0x1_0000
    ensures fresh(img) && img.sb == super
    ensures r.Panic? ==>
              || (exists k :: 0 <= k < |files| && |files[k]| > MAXBYTES)
              || DIRENT * (|names| + 2) > MAXBYTES || img.freeblock > super.size || img.freeblock >= BPB
    ensures r.Ok? ==>
              && CrashFiles.FilesOk(super, img.blk) && Settled(super, Nodes(super, img.blk), img.blk)
              && (forall L: LR.Layout :: CrashFiles.LogBelow(L, super) && L.size > 0 ==> LR.Clear(L, img.blk))
              && (forall k :: 0 <= k < |files| ==> Reads(Nodes(super, img.blk), img.blk, k + 2, files[k]))
              && (exists root :: Starts(Nodes(super, img.blk), img.blk, ROOTINO, root) && Lists(root, names))
              && KindsUpTo(Nodes(super, img.blk), |names| + 2)
              && Nodes(super, img.blk)[ROOTINO].size == Rounded(DIRENT * (|names| + 2)) && img.blk[1] == superblock
              && (WithoutHoles(Nodes(super, img.blk), img.blk, ROOTINO) <==> DIRENT * (|names| + 2) % BSIZE != 0)
  {
    hide Built, Consistent, Nodes, Settled, Reads, Starts, WithoutHoles, RootEntries, ZeroBlock, LR.Clear, Lists, KindsUpTo, Rounded;
    img := new Image(super, superblock);
    ghost var b0 := img.blk;
    r := img.Build(names, files);
    if r.Ok? {
      assert CrashFiles.FilesOk(super, img.blk);
      FilesSettled(super, img.blk);
      forall L: LR.Layout | CrashFiles.LogBelow(L, super) && L.size > 0 ensures LR.Clear(L, img.blk) {
        assert b0[L.start] == ZeroBlock();
        CrashFiles.ZeroLogClear(L, super, img.blk);
      }
    }
  }
}
