// The block allocator, the block map and byte-level file access (fs.c), over blocks that are
// read through bread and changed through log_write.
module Fs {
  import opened Params
  import opened Blocks
  import opened Bits
  import opened FsState
  import opened FsGrow
  import opened FileBytes
  import opened Dinode
  import opened FileFrame
  import opened FreeSpace
  import opened Truncate

  class Fs {
    const sb: Super
    var blk: seq<Block>
    var nodes: seq<Inode>
    ghost var own: map<nat, Slot>
    ghost var logged: set<nat>     // blocks given to log_write since the last begin_op
    ghost var nodes0: seq<Inode>   // inodes and blocks at that time
    ghost var blk0: seq<Block>

    constructor (super: Super, blocks: seq<Block>, inodes: seq<Inode>, ghost owner: map<nat, Slot>)
      requires Consistent(super, inodes, blocks, owner)
      ensures Valid() && sb == super && blk == blocks && nodes == inodes && own == owner && logged == {} && InOp()
    {
      sb, blk, nodes := super, blocks, inodes;
      own, logged, nodes0, blk0 := owner, {}, inodes, blocks;
      OpBegins(super, inodes, blocks);
    }

    ghost predicate Valid()
      reads this
    {
      Shape(sb, nodes, blk) && Consistent(sb, nodes, blk, own)
    }

    // Only logged blocks have changed since begin_op.
    ghost predicate Kept()
      reads this`blk, this`blk0, this`logged
    {
      Stored(blk0, blk, logged)
    }

    // What has happened since begin_op is what an operation may do.
    ghost predicate InOp()
      reads this`blk, this`nodes, this`blk0, this`nodes0, this`logged
    {
      OpStep(sb, nodes0, blk0, nodes, blk, logged)
    }

    // begin_op: a new operation has logged nothing yet.
    ghost method BeginOp()
      modifies this`logged, this`nodes0, this`blk0
      ensures logged == {} && nodes0 == nodes && blk0 == blk && InOp()
    {
      OpBegins(sb, nodes, blk);
      logged, nodes0, blk0 := {}, nodes, blk;
    }

    // A block is read, changed to x and handed to the log.
    method LogWrite(b: nat, x: Block)
      requires b < |blk|
      modifies this`blk, this`logged
      ensures blk == old(blk)[b := x] && logged == old(logged) + {b} && (old(Kept()) ==> Kept())
    {
      blk := blk[b := x];
      logged := logged + {b};
    }

    // The lowest numbered free block, marked in use and cleared.
    method Balloc() returns (r: Result<Word>)
      requires Shape(sb, nodes, blk)
      modifies this`blk, this`logged
      ensures old(Kept()) ==> Kept()
      ensures r.Panic? <==> Full(sb, old(blk))
      ensures r.Panic? ==> blk == old(blk) && logged == old(logged)
      ensures r.Ok? ==>
                && r.value < sb.size && !BitAt(sb, old(blk), r.value)
                && (forall c :: 0 <= c < r.value ==> BitAt(sb, old(blk), c))
                && blk == Allocated(sb, old(blk), r.value)
                && logged == old(logged) + {BitBlock(sb, r.value), r.value}
    {
      hide GetBit, SetBit, ZeroBlock, BitAt, Kept;
      var b := 0;
      while b < sb.size
        invariant b % BPB == 0 && blk == old(blk) && logged == old(logged)
        invariant forall c :: 0 <= c < b && c < sb.size ==> BitAt(sb, blk, c)
      {
        var bb := b / BPB + sb.bmapstart;
        var bp := blk[bb];
        var bi := 0;
        while bi < BPB && b + bi < sb.size
          invariant 0 <= bi <= BPB && blk == old(blk) && logged == old(logged)
          invariant forall c :: 0 <= c < b + bi && c < sb.size ==> BitAt(sb, blk, c)
        {
          BitInBlock(sb, blk, b, bi);
          if !GetBit(bp, bi) {
            LogWrite(bb, SetBit(bp, bi));
            LogWrite(b + bi, ZeroBlock());
            return Ok(b + bi);
          }
          bi := bi + 1;
        }
        b := b + BPB;
      }
      return Panic("balloc: out of blocks");
    }

    // The block's bit is cleared.
    method Bfree(b: nat) returns (r: Result<()>)
      requires Shape(sb, nodes, blk) && b < sb.size
      modifies this`blk, this`logged
      ensures old(Kept()) ==> Kept()
      ensures r.Panic? <==> !BitAt(sb, old(blk), b)
      ensures r.Panic? ==> blk == old(blk) && logged == old(logged)
      ensures r.Ok? ==>
                && BitBlock(sb, b) < |old(blk)|
                && blk == old(blk)[BitBlock(sb, b) := DropBit(old(blk)[BitBlock(sb, b)], b % BPB)]
                && logged == old(logged) + {BitBlock(sb, b)}
    {
      hide GetBit, DropBit, Kept;
      var bb := b / BPB + sb.bmapstart;
      if !GetBit(blk[bb], b % BPB) {
        return Panic("freeing free block");
      }
      LogWrite(bb, DropBit(blk[bb], b % BPB));
      return Ok(());
    }

    // The block an address of the inode names; an empty address first gets a new one.
    method AddrOrAlloc(i: nat, s: nat) returns (r: Result<Word>)
      requires Valid() && i < |nodes| && s <= NDIRECT
      modifies this`blk, this`nodes, this`own, this`logged
      ensures old(Kept()) ==> Kept()
      ensures r.Panic? <==> old(nodes)[i].addrs[s] == 0 && Full(sb, old(blk))
      ensures Valid() && |nodes| == |old(nodes)| && Grown(sb, old(nodes), old(blk), old(own), nodes, blk, own, i, {s})
      ensures r.Ok? ==> nodes[i] == PutAddr(old(nodes)[i], s, r.value) && RefAt(nodes, blk, i, s) == r.value != 0
      ensures r.Panic? || old(nodes)[i].addrs[s] != 0 ==>
                nodes == old(nodes) && blk == old(blk) && own == old(own) && logged == old(logged)
      ensures r.Ok? && old(nodes)[i].addrs[s] == 0 ==>
                && r.value < sb.size && blk[r.value] == ZeroBlock() && r.value !in old(own)
                && logged == old(logged) + {BitBlock(sb, r.value), r.value}
      ensures r.Panic? <==> Short(sb, old(nodes), old(blk), i, {s})
      ensures r.Ok? ==> Filled(sb, old(own), own, old(nodes), old(blk), nodes, blk, i, {s})
    {
      var addr := nodes[i].addrs[s];
      AddrValue(sb, nodes, blk, i, s);
      ShortOne(sb, nodes, blk, i, s);
      hide RefAt, BitAt, Grown, ZeroBlock, Own, Allocated, Kept, Short, Filled, Full;
      if addr != 0 {
        GrownSame(sb, nodes, blk, own, i, {s});
        FilledAlready(sb, own, nodes, blk, i, s);
        return Ok(addr);
      }
      r := NewAddr(i, s);
    }

    // An empty address gets a new block.
    method NewAddr(i: nat, s: nat) returns (r: Result<Word>)
      requires Valid() && i < |nodes| && s <= NDIRECT && nodes[i].addrs[s] == 0
      modifies this`blk, this`nodes, this`own, this`logged
      ensures old(Kept()) ==> Kept()
      ensures r.Panic? <==> Full(sb, old(blk))
      ensures Valid() && |nodes| == |old(nodes)| && Grown(sb, old(nodes), old(blk), old(own), nodes, blk, own, i, {s})
      ensures r.Panic? ==> nodes == old(nodes) && blk == old(blk) && own == old(own) && logged == old(logged)
      ensures r.Ok? ==>
                && nodes[i] == PutAddr(old(nodes)[i], s, r.value) && RefAt(nodes, blk, i, s) == r.value != 0
                && r.value < sb.size && blk[r.value] == ZeroBlock() && r.value !in old(own)
                && logged == old(logged) + {BitBlock(sb, r.value), r.value}
                && Filled(sb, old(own), own, old(nodes), old(blk), nodes, blk, i, {s})
    {
      hide RefAt, BitAt, Grown, ZeroBlock, Own, Allocated, Kept, Filled, Full;
      r := Balloc();
      if r.Panic? {
        GrownSame(sb, nodes, blk, own, i, {s});
        return;
      }
      AddrFilled(sb, nodes, old(blk), own, i, s, r.value);
      hide Shape;
      nodes := nodes[i := PutAddr(nodes[i], s, r.value)];
      own := own[r.value := (i, s)];
    }

    // The second half of bmap: the same for an entry of the indirect block, which is logged when it changes.
    method EntryOrAlloc(i: nat, s: nat) returns (r: Result<Word>)
      requires Valid() && i < |nodes| && NDIRECT < s < SLOTS && nodes[i].addrs[NDIRECT] != 0
      modifies this`blk, this`own, this`logged
      ensures old(Kept()) ==> Kept()
      ensures r.Panic? <==> RefAt(nodes, old(blk), i, s) == 0 && Full(sb, old(blk))
      ensures Valid() && Grown(sb, nodes, old(blk), old(own), nodes, blk, own, i, {s})
      ensures r.Ok? ==> RefAt(nodes, blk, i, s) == r.value != 0
      ensures r.Panic? || RefAt(nodes, old(blk), i, s) != 0 ==>
                blk == old(blk) && own == old(own) && logged == old(logged)
      ensures r.Ok? && RefAt(nodes, old(blk), i, s) == 0 ==>
                && r.value < sb.size && blk[r.value] == ZeroBlock() && r.value !in old(own)
                && logged == old(logged) + {BitBlock(sb, r.value), r.value, nodes[i].addrs[NDIRECT]}
      ensures r.Panic? <==> Short(sb, nodes, old(blk), i, {s})
      ensures r.Ok? ==> Filled(sb, old(own), own, nodes, old(blk), nodes, blk, i, {s})
    {
      ShortOne(sb, nodes, blk, i, s);
      hide RefAt, BitAt, Grown, ZeroBlock, SetWord, GetWord, Own, Allocated, Kept, Short, Filled, Full;
      var a := nodes[i].addrs[NDIRECT];
      EntryValue(sb, nodes, blk, own, i, s);
      var addr := GetWord(blk[a], s - NDIRECT - 1);
      if addr != 0 {
        GrownSame(sb, nodes, blk, own, i, {s});
        FilledAlready(sb, own, nodes, blk, i, s);
        return Ok(addr);
      }
      r := NewEntry(i, s);
    }

    // An empty entry of the indirect block gets a new block.
    method NewEntry(i: nat, s: nat) returns (r: Result<Word>)
      requires Valid() && i < |nodes| && NDIRECT < s < SLOTS && nodes[i].addrs[NDIRECT] != 0 && RefAt(nodes, blk, i, s) == 0
      modifies this`blk, this`own, this`logged
      ensures old(Kept()) ==> Kept()
      ensures r.Panic? <==> Full(sb, old(blk))
      ensures Valid() && Grown(sb, nodes, old(blk), old(own), nodes, blk, own, i, {s})
      ensures r.Panic? ==> blk == old(blk) && own == old(own) && logged == old(logged)
      ensures r.Ok? ==>
                && RefAt(nodes, blk, i, s) == r.value != 0
                && r.value < sb.size && blk[r.value] == ZeroBlock() && r.value !in old(own)
                && logged == old(logged) + {BitBlock(sb, r.value), r.value, nodes[i].addrs[NDIRECT]}
                && Filled(sb, old(own), own, nodes, old(blk), nodes, blk, i, {s})
    {
      hide RefAt, BitAt, Grown, ZeroBlock, SetWord, GetWord, Own, Allocated, Kept, Filled, Full;
      var a := nodes[i].addrs[NDIRECT];
      r := Balloc();
      if r.Panic? {
        GrownSame(sb, nodes, blk, own, i, {s});
        return;
      }
      AllocEntry(sb, nodes, old(blk), own, i, s, r.value);
      LogWrite(a, SetWord(blk[a], s - NDIRECT - 1, r.value));
      FilledOne(sb, own, nodes, old(blk), nodes, blk, i, s, r.value);
      own := own[r.value := (i, s)];
    }

    // The second half of bmap for slot s of the indirect block, whose address may be empty too.
    method BmapIndirect(i: nat, s: nat) returns (r: Result<Word>)
      requires Valid() && i < |nodes| && NDIRECT < s < SLOTS
      modifies this`blk, this`nodes, this`own, this`logged
      ensures old(Kept()) ==> Kept()
      ensures Valid() && |nodes| == |old(nodes)|
      ensures Grown(sb, old(nodes), old(blk), old(own), nodes, blk, own, i, {s, NDIRECT})
      ensures r.Panic? ==> RefAt(old(nodes), old(blk), i, s) == 0 && Full(sb, blk)
      ensures r.Ok? ==> RefAt(nodes, blk, i, s) == r.value != 0
      ensures r.Ok? ==> OnlyLogged(sb, old(logged), logged, {r.value as nat, nodes[i].addrs[NDIRECT] as nat})
      ensures r.Ok? && RefAt(old(nodes), old(blk), i, s) != 0 ==>
                nodes == old(nodes) && blk == old(blk) && own == old(own) && logged == old(logged)
      ensures r.Ok? && RefAt(old(nodes), old(blk), i, s) == 0 ==>
                r.value !in old(own) && r.value < sb.size && blk[r.value] == ZeroBlock()
      ensures r.Panic? <==> Short(sb, old(nodes), old(blk), i, {s, NDIRECT})
      ensures r.Ok? ==> Filled(sb, old(own), own, old(nodes), old(blk), nodes, blk, i, {s, NDIRECT})
    {
      hide BitAt, Grown, ZeroBlock, SetBit, GetWord, Own, Kept, Short, Filled, FreeBlocks;
      ghost var n0, b0, o0 := nodes, blk, own;
      assert RefAt(n0, b0, i, s) != 0 ==> n0[i].addrs[NDIRECT] != 0;
      hide RefAt;
      r := AddrOrAlloc(i, NDIRECT);
      ghost var n1, b1, o1 := nodes, blk, own;
      if r.Panic? {
        GrownSame(sb, nodes, blk, own, i, {s, NDIRECT});
        ShortMore(sb, n0, b0, i, {NDIRECT}, {s, NDIRECT});
        return;
      }
      ghost var a := nodes[i].addrs[NDIRECT];
      SlotKept(sb, n0, b0, o0, n1, b1, o1, i, {NDIRECT}, s);
      r := EntryOrAlloc(i, s);
      GrownTrans(sb, n0, b0, o0, n1, b1, o1, nodes, blk, own, i, {NDIRECT}, {s});
      assert {NDIRECT} + {s} == {s, NDIRECT};
      if r.Panic? {
        TooFew(sb, o0, o1, n0, b0, n1, b1, i, {NDIRECT}, {s}, {s, NDIRECT});
      }
      if r.Ok? {
        FilledTrans(sb, o0, o1, own, n0, b0, n1, b1, nodes, blk, i, {NDIRECT}, {s});
        FilledFree(sb, o0, own, n0, b0, nodes, blk, i, {s, NDIRECT});
        RefInRange(sb, nodes, blk, own, i, s);
        AddrValue(sb, nodes, blk, i, NDIRECT);
        RefInRange(sb, nodes, blk, own, i, NDIRECT);
        BitBlockIsBitmap(sb, r.value);
        BitBlockIsBitmap(sb, a);
      }
    }

    // The disk address of the bn-th block of inode i, allocated if there is none yet.
    method Bmap(i: nat, bn: nat) returns (r: Result<Word>)
      requires Valid() && i < |nodes|
      modifies this`blk, this`nodes, this`own, this`logged
      ensures old(Kept()) ==> Kept()
      ensures Valid() && |nodes| == |old(nodes)|
      ensures bn >= MAXFILE ==> r == Panic("bmap: out of range")
      ensures bn >= MAXFILE || (r.Ok? && RefAt(old(nodes), old(blk), i, FileSlot(bn)) != 0) ==>
                nodes == old(nodes) && blk == old(blk) && own == old(own) && logged == old(logged)
      ensures bn < MAXFILE ==>
                && Grown(sb, old(nodes), old(blk), old(own), nodes, blk, own, i, {FileSlot(bn), NDIRECT})
                && (r.Panic? ==> RefAt(old(nodes), old(blk), i, FileSlot(bn)) == 0 && Full(sb, blk))
                && (r.Ok? ==> RefAt(nodes, blk, i, FileSlot(bn)) == r.value != 0)
                && (r.Ok? ==> OnlyLogged(sb, old(logged), logged, MapBlocks(nodes[i], bn, r.value)))
                && (r.Ok? && RefAt(old(nodes), old(blk), i, FileSlot(bn)) == 0 ==>
                      r.value !in old(own) && r.value < sb.size && blk[r.value] == ZeroBlock())
                && (r.Panic? <==> Short(sb, old(nodes), old(blk), i, MapSlots(bn)))
                && (r.Ok? ==> Filled(sb, old(own), own, old(nodes), old(blk), nodes, blk, i, MapSlots(bn)))
    {
      hide BitAt, Grown, ZeroBlock, Own, RefAt, Kept, Short, Filled;
      if bn < NDIRECT {
        AddrValue(sb, nodes, blk, i, bn);
        r := AddrOrAlloc(i, bn);
        GrownMore(sb, old(nodes), old(blk), old(own), nodes, blk, own, i, {bn}, {FileSlot(bn), NDIRECT});
        if r.Ok? {
          RefInRange(sb, nodes, blk, own, i, bn);
          BitBlockIsBitmap(sb, r.value);
        }
        return;
      }
      if bn - NDIRECT < NINDIRECT {
        r := BmapIndirect(i, bn + 1);
        return;
      }
      return Panic("bmap: out of range");
    }

    // The inode in memory replaces its copy on disk.
    method Iupdate(i: nat)
      requires Valid() && i < |nodes|
      modifies this`blk, this`logged
      ensures old(Kept()) ==> Kept()
      ensures Valid() && OthersSame(nodes, old(blk), nodes, blk, i)
      ensures logged == old(logged) + {sb.IBlock(i)}
      ensures sb.IBlock(i) < sb.size
      ensures blk == old(blk)[sb.IBlock(i) := PutInode(old(blk)[sb.IBlock(i)], i % IPB, nodes[i])]
      ensures forall j :: 0 <= j < sb.ninodes ==> DiskInode(sb, blk, j) == if j == i then nodes[i] else DiskInode(sb, old(blk), j)
    {
      hide PutInode, GetInode, Own, RefAt, Kept;
      UpdateKeeps(sb, nodes, blk, own, i);
      LogWrite(sb.IBlock(i), PutInode(blk[sb.IBlock(i)], i % IPB, nodes[i]));
    }

    // One turn of readi's loop: m bytes come out of the bn-th block from byte d on.
    method ReadBlock(i: nat, bn: nat, d: nat, m: nat, ghost w: seq<Byte>) returns (r: Result<Word>, dst: seq<Byte>)
      requires Valid() && i < |nodes| && Holds(nodes[i], blk, w)
      requires d < BSIZE && 0 < m <= BSIZE - d && bn * BSIZE + d + m <= |w|
      modifies this`blk, this`nodes, this`own, this`logged
      ensures blk == old(blk) && nodes == old(nodes) && own == old(own) && logged == old(logged)
      ensures r.Ok? && dst == w[bn * BSIZE + d..bn * BSIZE + d + m]
    {
      hide Own, RefAt, Grown, Ref, MappedTo, Holds;
      ghost var o := bn * BSIZE + d;
      assert o / BSIZE == bn && o % BSIZE == d;
      ReadPiece(nodes, blk, i, w, o, m);
      r := Bmap(i, bn);
      dst := blk[r.value][d..d + m];
    }

    // The loop of readi.
    method ReadLoop(i: nat, off: nat, n: nat, ghost w: seq<Byte>) returns (dst: seq<Byte>)
      requires Valid() && i < |nodes| && Holds(nodes[i], blk, w) && off + n <= |w|
      modifies this`blk, this`nodes, this`own, this`logged
      ensures blk == old(blk) && nodes == old(nodes) && own == old(own) && logged == old(logged)
      ensures dst == w[off..off + n]
    {
      hide Own, RefAt, Holds;
      var tot, o := 0, off;
      dst := [];
      while tot < n
        invariant tot <= n && o == off + tot
        invariant blk == old(blk) && nodes == old(nodes) && own == old(own) && logged == old(logged)
        invariant dst == w[off..o]
      {
        var m := if n - tot < BSIZE - o % BSIZE then n - tot else BSIZE - o % BSIZE;
        Turn(off, o, m);
        var b, piece := ReadBlock(i, o / BSIZE, o % BSIZE, m, w);
        assert w[off..o] + w[o..o + m] == w[off..o + m];
        dst := dst + piece;
        tot, o := tot + m, o + m;
      }
    }

    // Read data from an inode that is not a device.  Like bmap it could allocate, but below the
    // size there is nothing to allocate.
    method Readi(i: nat, off: Word, n: Word) returns (r: Result<int>, dst: seq<Byte>)
      requires Valid() && i < |nodes| && nodes[i].typ != T_DEV && NoHoles(nodes[i], blk)
      modifies this`blk, this`nodes, this`own, this`logged
      ensures blk == old(blk) && nodes == old(nodes) && own == old(own) && logged == old(logged)
      ensures off > nodes[i].size || off + n >= TWO32 ==> r == Ok(-1) && dst == []
      ensures off <= nodes[i].size && off + n < TWO32 ==>
                && r == Ok(|dst|)
                && dst == Content(nodes[i], blk)[off..if off + n > nodes[i].size then nodes[i].size else off + n]
    {
      hide Own, RefAt, MappedTo, Holds, Content;
      if off > nodes[i].size || (off + n) % TWO32 < off {
        return Ok(-1), [];
      }
      HoldsContent(nodes[i], blk);
      var len := n;
      if off + n > nodes[i].size {
        len := nodes[i].size - off;
      }
      dst := ReadLoop(i, off, len, Content(nodes[i], blk));
      r := Ok(len);
    }

    // One turn of writei's loop: the piece goes into the bn-th block from byte d on.
    method WriteBlock(i: nat, bn: nat, d: nat, piece: seq<Byte>,
                      ghost n0: seq<Inode>, ghost b0: seq<Block>, ghost l0: set<nat>,
                      ghost want: seq<Byte>, ghost lo: nat, ghost hi: nat)
      returns (r: Result<Word>)
      requires Valid() && i < |nodes| && bn < MAXFILE && Shape(sb, n0, b0)
      requires Wrote(sb, n0, b0, l0, nodes, blk, own, logged, i, want, lo, hi) && lo <= bn && hi <= bn + 1
      requires d < BSIZE && d + |piece| <= BSIZE && bn * BSIZE + d <= |want|
      modifies this`blk, this`nodes, this`own, this`logged
      ensures old(Kept()) ==> Kept()
      ensures Valid() && |nodes| == |old(nodes)|
      ensures bn * BSIZE < |want| ==> r.Ok? && nodes == old(nodes)
      ensures r.Panic? ==> Full(sb, blk)
      ensures r.Ok? ==> Wrote(sb, n0, b0, l0, nodes, blk, own, logged, i,
                              Splice(want, bn * BSIZE + d, piece), lo, bn + 1)
      ensures r.Panic? <==> Short(sb, old(nodes), old(blk), i, MapSlots(bn))
      ensures r.Ok? ==> Filled(sb, old(own), own, old(nodes), old(blk), nodes, blk, i, MapSlots(bn))
    {
      hide Own, RefAt, Grown, Ref, MappedTo, BitAt, Wrote, Kept, Filled, Short, MapSlots, Full;
      WroteHolds(sb, n0, b0, l0, nodes, blk, own, logged, i, want, lo, hi, bn);
      r := Bmap(i, bn);
      if r.Panic? {
        return;
      }
      WroteGrown(sb, n0, b0, l0, old(nodes), old(blk), old(own), old(logged), nodes, blk, own, logged,
                 i, want, lo, hi, bn, r.value);
      WroteStored(sb, n0, b0, l0, nodes, blk, own, logged + {r.value}, i, want, lo, bn + 1, bn, d, piece);
      DataSameRefs(sb, nodes, blk, own, i, bn, Splice(blk[r.value], d, piece));
      FilledStored(sb, old(own), own, old(nodes), old(blk), nodes, blk, blk[r.value := Splice(blk[r.value], d, piece)], i, MapSlots(bn));
      LogWrite(r.value, Splice(blk[r.value], d, piece));
    }

    // The loop of writei.
    method WriteLoop(i: nat, src: seq<Byte>, off: nat, n: nat) returns (r: Result<Word>)
      requires Valid() && i < |nodes| && NoHoles(nodes[i], blk) && n <= |src|
      requires off <= nodes[i].size && off + n <= MAXBYTES
      modifies this`blk, this`nodes, this`own, this`logged
      ensures old(Kept()) ==> Kept()
      ensures Valid() && |nodes| == |old(nodes)|
      ensures off + n <= old(nodes)[i].size ==> r.Ok? && nodes == old(nodes)
      ensures r.Panic? ==> Full(sb, blk)
      ensures r.Ok? ==> Wrote(sb, old(nodes), old(blk), old(logged), nodes, blk, own, logged, i,
                              Splice(Content(old(nodes)[i], old(blk)), off, src[..n]), off / BSIZE, (off + n + BSIZE - 1) / BSIZE)
      ensures var slots := RangeSlots(off / BSIZE, (off + n + BSIZE - 1) / BSIZE);
        && (r.Panic? <==> Short(sb, old(nodes), old(blk), i, slots))
        && (r.Ok? ==> Filled(sb, old(own), own, old(nodes), old(blk), nodes, blk, i, slots))
    {
      hide Own, RefAt, Grown, Ref, MappedTo, BitAt, Wrote, Splice, Content, Full, Kept, Filled, Short, RangeSlots, MapSlots;
      ghost var n0, b0, l0, o0 := nodes, blk, logged, own;
      ghost var w := Content(nodes[i], blk);
      ghost var lo, hi := off / BSIZE, (off + BSIZE - 1) / BSIZE;
      WroteStart(sb, nodes, blk, own, logged, i, lo, hi);
      SpliceNone(w, off, src);
      StartsFilled(sb, own, nodes, blk, i, off);
      var tot, o := 0, off;
      while tot < n
        invariant tot <= n && o == off + tot && |nodes| == |n0| && hi == (o + BSIZE - 1) / BSIZE
        invariant Valid() && (o <= n0[i].size ==> nodes == n0) && (old(Kept()) ==> Kept())
        invariant Wrote(sb, n0, b0, l0, nodes, blk, own, logged, i, Splice(w, off, src[..tot]), lo, hi)
        invariant Filled(sb, o0, own, n0, b0, nodes, blk, i, RangeSlots(lo, hi))
      {
        ghost var n1, b1, o1 := nodes, blk, own;
        var m := if n - tot < BSIZE - o % BSIZE then n - tot else BSIZE - o % BSIZE;
        SpliceMore(w, off, src, tot, m);
        Turn(off, o, m);
        TurnSlots(off, o, m, n);
        r := WriteBlock(i, o / BSIZE, o % BSIZE, src[tot..tot + m], n0, b0, l0, Splice(w, off, src[..tot]), lo, hi);
        if r.Panic? {
          TooFew(sb, o0, o1, n0, b0, n1, b1, i, RangeSlots(lo, hi), MapSlots(o / BSIZE), RangeSlots(lo, (off + n + BSIZE - 1) / BSIZE));
          return;
        }
        FilledTrans(sb, o0, o1, own, n0, b0, n1, b1, nodes, blk, i, RangeSlots(lo, hi), MapSlots(o / BSIZE));
        tot, o, hi := tot + m, o + m, o / BSIZE + 1;
      }
      FilledFree(sb, o0, own, n0, b0, nodes, blk, i, RangeSlots(lo, hi));
      r := Ok(tot);
    }

    // Write data to an inode that is not a device.
    method Writei(i: nat, src: seq<Byte>, off: Word, n: Word) returns (r: Result<int>)
      requires Valid() && i < |nodes| && nodes[i].typ != T_DEV && NoHoles(nodes[i], blk) && n <= |src|
      modifies this`blk, this`nodes, this`own, this`logged
      ensures old(Kept()) ==> Kept()
      ensures r.Ok? && old(InOp()) ==> InOp()
      ensures Valid() && |nodes| == |old(nodes)|
      ensures Rejected(old(nodes)[i].size, off, n) ==>
                && r == Ok(-1)
                && blk == old(blk) && nodes == old(nodes) && own == old(own) && logged == old(logged)
      ensures r.Panic? ==> off + n > old(nodes)[i].size && Full(sb, blk)
      ensures !Rejected(old(nodes)[i].size, off, n) ==>
                var need := BlocksNeeded(sb, old(nodes), old(blk), i, off / BSIZE, (off + n + BSIZE - 1) / BSIZE);
                && (r.Panic? <==> |FreeBlocks(sb, old(blk))| < need)
                && (r.Ok? ==> |FreeBlocks(sb, old(blk))| == |FreeBlocks(sb, blk)| + need)
      ensures r.Ok? && !Rejected(old(nodes)[i].size, off, n) ==>
                && r.value == n && NoHoles(nodes[i], blk)
                && Content(nodes[i], blk) == Splice(Content(old(nodes)[i], old(blk)), off, src[..n])
                && nodes[i] == old(nodes)[i].(addrs := nodes[i].addrs, size := nodes[i].size)
                && OthersSame(old(nodes), old(blk), nodes, blk, i)
                && KeepsSynced(sb, old(nodes), old(blk), nodes, blk)
                && LoggedFor(sb, own, old(logged), logged, i, off / BSIZE, (off + n + BSIZE - 1) / BSIZE)
    {
      hide Own, RefAt, Grown, Ref, MappedTo, BitAt, Wrote, DiskInode, Content, OthersSame, KeepsSynced, LoggedFor, Full, PutInode, Above, Settled;
      hide FreeBlocks, Missing, RangeSlots;
      if off > nodes[i].size || (off + n) % TWO32 < off {
        return Ok(-1);
      }
      if (off + n) % TWO32 > MAXBYTES {
        return Ok(-1);
      }
      ghost var n0, b0, l0, o0 := nodes, blk, logged, own;
      ghost var want := Splice(Content(nodes[i], blk), off, src[..n]);
      hide Splice;
      var e := WriteLoop(i, src, off, n);
      if e.Panic? {
        return Panic(e.why);
      }
      var o := off + n;
      ghost var lo, hi := off / BSIZE, (off + n + BSIZE - 1) / BSIZE;
      WroteHolds(sb, n0, b0, l0, nodes, blk, own, logged, i, want, lo, hi, 0);
      if n > 0 && o > nodes[i].size {
        assert |want| == o;
        FinishGrown(sb, n0, b0, l0, nodes, blk, own, logged, i, want, lo, hi);
        nodes := nodes[i := nodes[i].(size := o)];
        Iupdate(i);
      } else {
        FinishKept(sb, n0, b0, l0, nodes, blk, own, logged, i, want, lo, hi);
      }
      SpaceLeft(sb, o0, own, n0, b0, nodes, blk, BlocksNeeded(sb, n0, b0, i, lo, hi));
      if old(InOp()) {
        LoggedAbove(sb, nodes, blk, own, l0, logged, i, lo, hi);
        OpGoesOn(sb, nodes0, blk0, n0, b0, l0, nodes, blk, own, logged);
      }
      r := Ok(n);
    }

    // bfree(c) for a block c that inode i owns: its slot is stale from then on.
    method FreeOwned(i: nat, c: nat, ghost stale: set<Slot>, ghost n0: seq<Inode>, ghost b0: seq<Block>,
                     ghost o0: map<nat, Slot>, ghost l0: set<nat>)
      returns (r: Result<()>)
      requires Shape(sb, nodes, blk) && Own(sb, nodes, blk, own, {}, stale) && Shape(sb, n0, b0)
      requires Cut(sb, n0, b0, o0, l0, nodes, blk, own, logged, i)
      requires c in own && own[c].0 == i && StaleOf(stale, i, SLOTS)
      modifies this`blk, this`own, this`logged
      ensures old(Kept()) ==> Kept()
      ensures r.Ok? && Shape(sb, nodes, blk)
      ensures own == old(own) - {c} && Own(sb, nodes, blk, own, {}, stale + {old(own)[c]})
      ensures SameRefs(nodes, old(blk), nodes, blk, {})
      ensures Cut(sb, n0, b0, o0, l0, nodes, blk, own, logged, i)
    {
      hide Own, BitAt, DropBit, RefAt, Cut, SameRefs, Kept;
      CutFree(sb, n0, b0, o0, l0, nodes, blk, own, logged, i, stale, c);
      r := Bfree(c);
      own := own - {c};
    }

    // A direct address that is filled is given up and cleared.
    method TruncAddr(i: nat, s: nat, ghost n0: seq<Inode>, ghost b0: seq<Block>, ghost o0: map<nat, Slot>, ghost l0: set<nat>)
      returns (r: Result<()>)
      requires Valid() && i < |nodes| && s < NDIRECT && Shape(sb, n0, b0)
      requires Cut(sb, n0, b0, o0, l0, nodes, blk, own, logged, i)
      modifies this`blk, this`nodes, this`own, this`logged
      ensures old(Kept()) ==> Kept()
      ensures r.Ok? && Valid() && |nodes| == |old(nodes)|
      ensures nodes[i] == PutAddr(old(nodes)[i], s, 0)
      ensures Cut(sb, n0, b0, o0, l0, nodes, blk, own, logged, i)
    {
      hide Own, BitAt, RefAt, Cut, SameRefs, Kept;
      if nodes[i].addrs[s] != 0 {
        AddrValue(sb, nodes, blk, i, s);
        RefInRange(sb, nodes, blk, own, i, s);
        r := FreeOwned(i, nodes[i].addrs[s], {}, n0, b0, o0, l0);
        assert {} + {(i, s)} == {(i, s)};
        ClearDirect(sb, nodes, blk, own, i, s);
        CutClear(sb, n0, b0, o0, l0, nodes, blk, own, logged, i, s, {(i, s)});
        nodes := nodes[i := PutAddr(nodes[i], s, 0)];
      } else {
        assert nodes[i] == PutAddr(nodes[i], s, 0);
        r := Ok(());
      }
    }

    // Every filled entry of the indirect block, whose data is a, is given up.
    method TruncEntries(i: nat, a: Block, ghost n0: seq<Inode>, ghost b0: seq<Block>, ghost o0: map<nat, Slot>, ghost l0: set<nat>)
      returns (r: Result<()>, ghost stale: set<Slot>)
      requires Valid() && i < |nodes| && Shape(sb, n0, b0)
      requires forall s :: NDIRECT < s < SLOTS ==> RefAt(nodes, blk, i, s) == GetWord(a, s - NDIRECT - 1)
      requires Cut(sb, n0, b0, o0, l0, nodes, blk, own, logged, i)
      modifies this`blk, this`own, this`logged
      ensures old(Kept()) ==> Kept()
      ensures r.Ok? && Shape(sb, nodes, blk) && Own(sb, nodes, blk, own, {}, stale) && StaleOf(stale, i, SLOTS)
      ensures SameRefs(nodes, old(blk), nodes, blk, {})
      ensures forall s :: NDIRECT < s < SLOTS ==> (i, s) in stale || RefAt(nodes, blk, i, s) == 0
      ensures Cut(sb, n0, b0, o0, l0, nodes, blk, own, logged, i)
    {
      hide Own, BitAt, RefAt, Cut, GetWord, Kept;
      stale := {};
      r := Ok(());
      var j := 0;
      while j < NINDIRECT
        invariant j <= NINDIRECT && r.Ok? && (old(Kept()) ==> Kept())
        invariant Shape(sb, nodes, blk) && Own(sb, nodes, blk, own, {}, stale)
        invariant StaleOf(stale, i, NDIRECT + 1 + j)
        invariant SameRefs(nodes, old(blk), nodes, blk, {})
        invariant forall s :: NDIRECT < s < NDIRECT + 1 + j ==> (i, s) in stale || RefAt(nodes, blk, i, s) == 0
        invariant Cut(sb, n0, b0, o0, l0, nodes, blk, own, logged, i)
      {
        ghost var s := NDIRECT + 1 + j;
        assert RefAt(nodes, blk, i, s) == GetWord(a, j);
        if GetWord(a, j) != 0 {
          OwnedSlot(sb, nodes, blk, own, stale, i, s);
          ghost var b1 := blk;
          r := FreeOwned(i, GetWord(a, j), stale, n0, b0, o0, l0);
          stale := stale + {(i, s)};
        }
        j := j + 1;
      }
    }

    // The indirect part of itrunc.
    method TruncIndirect(i: nat, ghost n0: seq<Inode>, ghost b0: seq<Block>, ghost o0: map<nat, Slot>, ghost l0: set<nat>)
      returns (r: Result<()>)
      requires Valid() && i < |nodes| && Shape(sb, n0, b0)
      requires Cut(sb, n0, b0, o0, l0, nodes, blk, own, logged, i)
      modifies this`blk, this`nodes, this`own, this`logged
      ensures old(Kept()) ==> Kept()
      ensures r.Ok? && Valid() && |nodes| == |old(nodes)|
      ensures nodes[i] == PutAddr(old(nodes)[i], NDIRECT, 0)
      ensures forall s :: NDIRECT <= s < SLOTS ==> RefAt(nodes, blk, i, s) == 0
      ensures Cut(sb, n0, b0, o0, l0, nodes, blk, own, logged, i)
    {
      hide Own, BitAt, RefAt, Cut, GetWord, SameRefs, Kept;
      var a := nodes[i].addrs[NDIRECT];
      if a == 0 {
        NoIndirect(nodes, blk, i);
        assert nodes[i] == PutAddr(nodes[i], NDIRECT, 0);
        return Ok(());
      }
      EntriesRead(sb, nodes, blk, own, i);
      ghost var stale;
      r, stale := TruncEntries(i, blk[a], n0, b0, o0, l0);
      OwnedIndirect(sb, nodes, blk, own, stale, i);
      ghost var b1 := blk;
      r := FreeOwned(i, a, stale, n0, b0, o0, l0);
      stale := stale + {(i, NDIRECT)};
      StaleKept(nodes, b1, blk, stale, i);
      ClearIndirect(sb, nodes, blk, own, stale, i);
      CutClear(sb, n0, b0, o0, l0, nodes, blk, own, logged, i, NDIRECT, stale);
      nodes := nodes[i := PutAddr(nodes[i], NDIRECT, 0)];
    }

    // The two parts of itrunc that give up blocks.
    method TruncAddrs(i: nat) returns (r: Result<()>)
      requires Valid() && i < |nodes|
      modifies this`blk, this`nodes, this`own, this`logged
      ensures old(Kept()) ==> Kept()
      ensures r.Ok? && Valid() && |nodes| == |old(nodes)| && Emptied(nodes, blk, i)
      ensures Cut(sb, old(nodes), old(blk), old(own), old(logged), nodes, blk, own, logged, i)
    {
      hide Own, BitAt, RefAt, Cut, Emptied, Kept;
      ghost var n0, b0, o0, l0 := nodes, blk, own, logged;
      CutStart(sb, nodes, blk, own, logged, i);
      var s := 0;
      while s < NDIRECT
        invariant s <= NDIRECT && Valid() && |nodes| == |n0| && (old(Kept()) ==> Kept())
        invariant forall t :: 0 <= t < s ==> nodes[i].addrs[t] == 0
        invariant Cut(sb, n0, b0, o0, l0, nodes, blk, own, logged, i)
      {
        r := TruncAddr(i, s, n0, b0, o0, l0);
        s := s + 1;
      }
      r := TruncIndirect(i, n0, b0, o0, l0);
      AllEmpty(sb, nodes, blk, i);
    }

    // The file loses all its blocks and its size.
    method Itrunc(i: nat) returns (r: Result<()>)
      requires Valid() && i < |nodes|
      modifies this`blk, this`nodes, this`own, this`logged
      ensures old(Kept()) ==> Kept()
      ensures old(InOp()) ==> InOp()
      ensures r.Ok?
      ensures Valid() && |nodes| == |old(nodes)| && Emptied(nodes, blk, i)
      ensures nodes[i] == old(nodes)[i].(size := 0, addrs := nodes[i].addrs) && NoHoles(nodes[i], blk) && Content(nodes[i], blk) == []
      ensures OthersSame(old(nodes), old(blk), nodes, blk, i)
      ensures KeepsSynced(sb, old(nodes), old(blk), nodes, blk) && Synced(sb, nodes, blk, i)
      ensures forall c :: 0 <= c < sb.size ==>
                (BitAt(sb, blk, c) <==> BitAt(sb, old(blk), c) && !(c in old(own) && old(own)[c].0 == i))
      ensures OnlyLogged(sb, old(logged), logged, {sb.IBlock(i)})
    {
      hide Own, BitAt, RefAt, Cut, GetWord, Emptied, KeepsSynced, OthersSame, DiskInode, Stored, Settled, Above;
      ghost var n0, b0, o0, l0 := nodes, blk, own, logged;
      r := TruncAddrs(i);
      TruncDone(sb, n0, b0, o0, l0, nodes, blk, own, logged, i);
      nodes := nodes[i := nodes[i].(size := 0)];
      Iupdate(i);
      if old(InOp()) {
        FreedAbove(sb, l0, logged, i);
        OpGoesOn(sb, nodes0, blk0, n0, b0, l0, nodes, blk, own, logged);
      }
    }
  }
}
