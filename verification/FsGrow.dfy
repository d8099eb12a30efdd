// How a file grows: balloc puts a zeroed block into an empty slot of one inode, and nothing else
// that the slots of the inodes refer to changes (fs.c: balloc, bmap).
module FsGrow {
  import opened Blocks
  import opened Bits
  import opened FsState

  // Fresh blocks went into some of the slots `slots` of inode i.  Every other slot, and the data of
  // every block outside the free map that was not fresh, is as before.
  ghost predicate Grown(sb: Super, n0: seq<Inode>, b0: seq<Block>, o0: map<nat, Slot>,
                        n1: seq<Inode>, b1: seq<Block>, o1: map<nat, Slot>, i: nat, slots: set<nat>)
    requires Shape(sb, n0, b0) && Shape(sb, n1, b1) && i < |n0|
  {
    && |n1| == |n0| && n1 == n0[i := n1[i]]
    && n1[i] == n0[i].(addrs := n1[i].addrs)
    && SameRefs(n0, b0, n1, b1, set s | s in slots :: (i, s))
    && (forall b :: b in o0 ==> b in o1 && o1[b] == o0[b])
    && (forall b :: b in o1 && b !in o0 ==> o1[b].0 == i && o1[b].1 in slots)
    && (forall b :: 0 <= b < sb.size && !sb.IsBitmap(b) && (b in o1 ==> b in o0 && o0[b].1 != NDIRECT) ==> b1[b] == b0[b])
  }

  lemma GrownSame(sb: Super, n: seq<Inode>, b: seq<Block>, o: map<nat, Slot>, i: nat, slots: set<nat>)
    requires Shape(sb, n, b) && i < |n|
    ensures Grown(sb, n, b, o, n, b, o, i, slots)
  {
  }

  function Allocated(sb: Super, b: seq<Block>, r: nat): (b': seq<Block>)
    requires sb.Ok() && |b| == sb.size && r < sb.size
    ensures |b'| == |b|
  {
    b[BitBlock(sb, r) := SetBit(b[BitBlock(sb, r)], r % BPB)][r := ZeroBlock()]
  }

  // What balloc leaves: a zeroed block in use, not yet in a slot.
  lemma AllocKeeps(sb: Super, n: seq<Inode>, b: seq<Block>, o: map<nat, Slot>, r: nat)
    requires Consistent(sb, n, b, o) && r < sb.size && !BitAt(sb, b, r)
    ensures sb.DataStart() <= r && r !in o
    ensures Own(sb, n, Allocated(sb, b, r), o, {r}, {}) && SameRefs(n, b, n, Allocated(sb, b, r), {})
  {
    MarkKeeps(sb, n, b, o, {}, r);
    hide BitAt, RefAt, ZeroBlock, SetBit;
    var b1 := b[BitBlock(sb, r) := SetBit(b[BitBlock(sb, r)], r % BPB)];
    assert {} + {r} == {r};
    StoreKeeps(sb, n, b1, o, {r}, r, ZeroBlock());
  }

  // balloc into an empty address.
  lemma AllocAddr(sb: Super, n: seq<Inode>, b: seq<Block>, o: map<nat, Slot>, i: nat, s: nat, r: Word)
    requires Shape(sb, n, b) && Consistent(sb, n, b, o) && i < |n| && s <= NDIRECT && n[i].addrs[s] == 0
    requires r < sb.size && !BitAt(sb, b, r)
    ensures sb.DataStart() <= r && r !in o
    ensures var n' := n[i := PutAddr(n[i], s, r)]; var b' := Allocated(sb, b, r); var o' := o[r := (i, s)];
      && Consistent(sb, n', b', o') && Grown(sb, n, b, o, n', b', o', i, {s})
      && RefAt(n', b', i, s) == r && b'[r] == ZeroBlock()
  {
    hide BitAt, RefAt, ZeroBlock, SetBit, Own;
    AllocKeeps(sb, n, b, o, r);
    var b' := Allocated(sb, b, r);
    assert b'[r] == ZeroBlock();
    ClaimAddr(sb, n, b', o, {r}, i, s, r);
    assert {r} - {r} == {};
    GrownByAddr(sb, n, b, o, n[i := PutAddr(n[i], s, r)], b', i, s, r);
  }

  lemma GrownByAddr(sb: Super, n: seq<Inode>, b: seq<Block>, o: map<nat, Slot>, n': seq<Inode>, b': seq<Block>,
                    i: nat, s: nat, r: nat)
    requires Shape(sb, n, b) && Shape(sb, n', b') && i < |n| && r !in o && s <= NDIRECT
    requires n' == n[i := n[i].(addrs := n'[i].addrs)]
    requires SameRefs(n, b, n', b', {(i, s)})
    requires forall c :: 0 <= c < sb.size && !sb.IsBitmap(c) && c != r ==> b'[c] == b[c]
    ensures Grown(sb, n, b, o, n', b', o[r := (i, s)], i, {s})
  {
    hide RefAt;
  }

  // balloc into an empty entry of the indirect block, which is then written back.
  lemma AllocEntry(sb: Super, n: seq<Inode>, b: seq<Block>, o: map<nat, Slot>, i: nat, s: nat, r: Word)
    requires Shape(sb, n, b) && Consistent(sb, n, b, o) && i < |n| && NDIRECT < s < SLOTS
    requires n[i].addrs[NDIRECT] != 0 && RefAt(n, b, i, s) == 0
    requires r < sb.size && !BitAt(sb, b, r)
    ensures var a := n[i].addrs[NDIRECT];
      && a < sb.size && Allocated(sb, b, r)[a] == b[a] && a != r && !sb.IsBitmap(a)
      && var b' := Allocated(sb, b, r)[a := SetWord(b[a], s - NDIRECT - 1, r)]; var o' := o[r := (i, s)];
      && Consistent(sb, n, b', o') && Grown(sb, n, b, o, n, b', o', i, {s})
      && RefAt(n, b', i, s) == r && r !in o && sb.DataStart() <= r && b'[r] == ZeroBlock()
  {
    hide BitAt, RefAt, ZeroBlock, SetBit, SetWord, GetWord, Own;
    var a := n[i].addrs[NDIRECT];
    AllocKeeps(sb, n, b, o, r);
    IndirectOwned(sb, n, b, o, {}, {}, i);
    var b1 := Allocated(sb, b, r);
    assert b1[a] == b[a];
    ClaimEntry(sb, n, b1, o, {r}, i, s, r);
    assert {r} - {r} == {};
    var b2 := b1[a := SetWord(b[a], s - NDIRECT - 1, r)];
    assert SameRefs(n, b, n, b2, {(i, s)});
    GrownByEntry(sb, n, b, o, b2, i, s, r, a);
  }

  lemma GrownByEntry(sb: Super, n: seq<Inode>, b: seq<Block>, o: map<nat, Slot>, b2: seq<Block>,
                     i: nat, s: nat, r: nat, a: nat)
    requires Shape(sb, n, b) && Shape(sb, n, b2) && i < |n| && r !in o && a in o && o[a] == (i, NDIRECT)
    requires SameRefs(n, b, n, b2, {(i, s)})
    requires forall c :: 0 <= c < sb.size && !sb.IsBitmap(c) && c != r && c != a ==> b2[c] == b[c]
    ensures Grown(sb, n, b, o, n, b2, o[r := (i, s)], i, {s})
  {
    hide RefAt;
  }

  lemma GrownTrans(sb: Super, n0: seq<Inode>, b0: seq<Block>, o0: map<nat, Slot>,
                   n1: seq<Inode>, b1: seq<Block>, o1: map<nat, Slot>,
                   n2: seq<Inode>, b2: seq<Block>, o2: map<nat, Slot>, i: nat, s: set<nat>, t: set<nat>)
    requires Shape(sb, n0, b0) && Shape(sb, n1, b1) && Shape(sb, n2, b2) && i < |n0|
    requires Grown(sb, n0, b0, o0, n1, b1, o1, i, s) && Grown(sb, n1, b1, o1, n2, b2, o2, i, t)
    ensures Grown(sb, n0, b0, o0, n2, b2, o2, i, s + t)
  {
    hide RefAt;
  }

  lemma GrownMore(sb: Super, n0: seq<Inode>, b0: seq<Block>, o0: map<nat, Slot>,
                  n1: seq<Inode>, b1: seq<Block>, o1: map<nat, Slot>, i: nat, s: set<nat>, t: set<nat>)
    requires Shape(sb, n0, b0) && Shape(sb, n1, b1) && i < |n0| && s <= t
    requires Grown(sb, n0, b0, o0, n1, b1, o1, i, s)
    ensures Grown(sb, n0, b0, o0, n1, b1, o1, i, t)
  {
    hide RefAt;
  }

  // No block of the disk is free.
  ghost predicate Full(sb: Super, b: seq<Block>)
    requires sb.Ok() && |b| == sb.size
  {
    forall c :: 0 <= c < sb.size ==> BitAt(sb, b, c)
  }

  // Bit bi of the bitmap block that starts with the bit of block b.
  lemma BitInBlock(sb: Super, blk: seq<Block>, b: nat, bi: nat)
    requires sb.Ok() && |blk| == sb.size && b % BPB == 0 && bi < BPB && b + bi < sb.size
    ensures b / BPB + sb.bmapstart < |blk| && BitBlock(sb, b + bi) == b / BPB + sb.bmapstart && (b + bi) % BPB == bi
    ensures BitAt(sb, blk, b + bi) <==> GetBit(blk[b / BPB + sb.bmapstart], bi)
  {
    hide GetBit;
    assert (b + bi) / BPB == b / BPB;
  }

  lemma BitBlockIsBitmap(sb: Super, r: nat)
    requires sb.Ok() && r < sb.size
    ensures sb.IsBitmap(BitBlock(sb, r))
  {
  }

  lemma RefInRange(sb: Super, n: seq<Inode>, b: seq<Block>, o: map<nat, Slot>, i: nat, s: nat)
    requires Consistent(sb, n, b, o) && i < |n| && s < SLOTS && RefAt(n, b, i, s) != 0
    ensures var r := RefAt(n, b, i, s); sb.DataStart() <= r < sb.size && r in o && o[r] == (i, s)
  {
    hide BitAt, RefAt;
    assert OwnedOk(sb, n, b, o[RefAt(n, b, i, s)], RefAt(n, b, i, s));
  }

  lemma AddrValue(sb: Super, n: seq<Inode>, b: seq<Block>, i: nat, s: nat)
    requires Shape(sb, n, b) && i < |n| && s <= NDIRECT
    ensures RefAt(n, b, i, s) == n[i].addrs[s]
  {
  }

  lemma EntryValue(sb: Super, n: seq<Inode>, b: seq<Block>, o: map<nat, Slot>, i: nat, s: nat)
    requires Shape(sb, n, b) && Consistent(sb, n, b, o) && i < |n| && NDIRECT < s < SLOTS
    requires n[i].addrs[NDIRECT] != 0
    ensures n[i].addrs[NDIRECT] < |b| && RefAt(n, b, i, s) == GetWord(b[n[i].addrs[NDIRECT]], s - NDIRECT - 1)
  {
    hide GetWord, Own;
    IndirectOwned(sb, n, b, o, {}, {}, i);
  }

  lemma SlotKept(sb: Super, n0: seq<Inode>, b0: seq<Block>, o0: map<nat, Slot>,
                 n1: seq<Inode>, b1: seq<Block>, o1: map<nat, Slot>, i: nat, slots: set<nat>, s: nat)
    requires Shape(sb, n0, b0) && Shape(sb, n1, b1) && i < |n0| && s < SLOTS && s !in slots
    requires Grown(sb, n0, b0, o0, n1, b1, o1, i, slots)
    ensures i < |n1| && RefAt(n1, b1, i, s) == RefAt(n0, b0, i, s)
    ensures forall b :: b in o0 ==> b in o1
  {
  }

  // log_write was only called for free-map blocks and for the blocks `more`.
  ghost predicate OnlyLogged(sb: Super, l0: set<nat>, l1: set<nat>, more: set<nat>) {
    l0 <= l1 && forall b :: b in l1 ==> b in l0 || sb.IsBitmap(b) || b in more
  }

  // The blocks bmap looks at to find the bn-th block r of a file.
  function MapBlocks(nd: Inode, bn: nat, r: nat): set<nat>
    requires |nd.addrs| == NDIRECT + 1
  {
    if bn < NDIRECT then {r} else {r, nd.addrs[NDIRECT]}
  }
}
