// What the blocks and inodes of the file system mean (fs.h, fs.c): which block each slot of each
// inode refers to, and how the free map must agree with that.
module FsState {
  import opened Params
  import opened Blocks
  import opened Bits

  const NDIRECT: nat := 12
  const NINDIRECT: nat := 128
  const MAXFILE: nat := 140
  const IPB: nat := 8
  const SLOTS: nat := 141          // 12 direct, the indirect block, its 128 entries
  const T_DEV: nat := 3

  datatype Super = Super(size: nat, ninodes: nat, inodestart: nat, bmapstart: nat) {
    // First block that is not metadata.  mkfs uses size / BPB + 1 bitmap blocks.
    function DataStart(): nat { bmapstart + size / BPB + 1 }

    // Boot block, super block and log lie below the inode blocks; then come the bitmap and the data.
    predicate Ok() {
      && 2 <= inodestart && inodestart + ninodes / IPB < bmapstart
      && DataStart() <= size < TWO32
    }

    predicate IsBitmap(b: nat) { bmapstart <= b < DataStart() }

    function IBlock(inum: nat): nat { inum / IPB + inodestart }
  }

  type Half = x: int | 0 <= x < 0x1_0000

  // struct inode, as far as it lives on disk; a short is kept as its 16 bits.
  datatype Inode = Inode(typ: Half, major: Half, minor: Half, nlink: Half, size: Word, addrs: seq<Word>)

  predicate Shape(sb: Super, nodes: seq<Inode>, blk: seq<Block>) {
    && sb.Ok() && |blk| == sb.size && |nodes| == sb.ninodes
    && forall i :: 0 <= i < |nodes| ==> |nodes[i].addrs| == NDIRECT + 1
  }

  // ---- slots ----

  type Slot = (nat, nat)

  // The block number in slot s of an inode: 0 .. 11 direct, 12 the indirect block, 13 .. its entries.
  function Ref(nd: Inode, blk: seq<Block>, s: nat): Word
    requires |nd.addrs| == NDIRECT + 1 && s < SLOTS
  {
    if s <= NDIRECT then nd.addrs[s]
    else if nd.addrs[NDIRECT] == 0 || nd.addrs[NDIRECT] >= |blk| then 0
    else GetWord(blk[nd.addrs[NDIRECT]], s - NDIRECT - 1)
  }

  function RefAt(nodes: seq<Inode>, blk: seq<Block>, i: nat, s: nat): Word
    requires i < |nodes| && |nodes[i].addrs| == NDIRECT + 1 && s < SLOTS
  {
    Ref(nodes[i], blk, s)
  }

  // The slot of the bn-th block of a file.
  function FileSlot(bn: nat): nat { if bn < NDIRECT then bn else bn + 1 }

  predicate BitAt(sb: Super, blk: seq<Block>, b: nat)
    requires sb.Ok() && |blk| == sb.size && b < sb.size
  {
    GetBit(blk[b / BPB + sb.bmapstart], b % BPB)
  }

  // The free map and the slots agree.  own says which slot refers to a block; blocks in pend are
  // marked in use but not yet put in a slot; slots in stale still hold a block already freed.
  ghost predicate Own(sb: Super, nodes: seq<Inode>, blk: seq<Block>, own: map<nat, Slot>,
                      pend: set<nat>, stale: set<Slot>)
  {
    && Shape(sb, nodes, blk)
    && (forall i, s :: 0 <= i < |nodes| && 0 <= s < SLOTS && (i, s) !in stale && RefAt(nodes, blk, i, s) != 0 ==>
          RefAt(nodes, blk, i, s) in own && own[RefAt(nodes, blk, i, s)] == (i, s))
    && (forall b :: b in own ==> OwnedOk(sb, nodes, blk, own[b], b))
    && (forall b :: b in own ==> own[b] !in stale)
    && (forall b :: b in pend ==> sb.DataStart() <= b < sb.size && b !in own)
    && (forall b :: 0 <= b < sb.size ==>
          (BitAt(sb, blk, b) <==> b < sb.DataStart() || b in own || b in pend))
  }

  predicate OwnedOk(sb: Super, nodes: seq<Inode>, blk: seq<Block>, at: Slot, b: nat)
    requires Shape(sb, nodes, blk)
  {
    && at.0 < |nodes| && at.1 < SLOTS && RefAt(nodes, blk, at.0, at.1) == b
    && sb.DataStart() <= b < sb.size
  }

  // Between operations.
  ghost predicate Consistent(sb: Super, nodes: seq<Inode>, blk: seq<Block>, own: map<nat, Slot>) {
    Own(sb, nodes, blk, own, {}, {})
  }

  // Block ownership: every block of the data area is marked in use exactly if one slot of one
  // inode refers to it, and no two slots refer to the same block.
  lemma ConsistentMeans(sb: Super, nodes: seq<Inode>, blk: seq<Block>, own: map<nat, Slot>)
    requires Consistent(sb, nodes, blk, own)
    ensures forall i, s, j, t :: 0 <= i < |nodes| && 0 <= s < SLOTS && 0 <= j < |nodes| && 0 <= t < SLOTS
              && RefAt(nodes, blk, i, s) == RefAt(nodes, blk, j, t) != 0
              ==> i == j && s == t
    ensures forall b :: sb.DataStart() <= b < sb.size ==>
              (BitAt(sb, blk, b) <==>
               exists i, s :: 0 <= i < |nodes| && 0 <= s < SLOTS && RefAt(nodes, blk, i, s) == b)
    ensures forall b :: 0 <= b < sb.DataStart() ==> BitAt(sb, blk, b)
  {
    forall b | sb.DataStart() <= b < sb.size
      ensures BitAt(sb, blk, b) <==>
              exists i, s :: 0 <= i < |nodes| && 0 <= s < SLOTS && RefAt(nodes, blk, i, s) == b
    {
      if BitAt(sb, blk, b) {
        assert OwnedOk(sb, nodes, blk, own[b], b);
        assert RefAt(nodes, blk, own[b].0, own[b].1) == b;
      }
    }
  }

  // ---- how single changes act on refs and bits ----

  // All slots but the one at `except` refer to the same blocks.
  ghost predicate SameRefs(nodes: seq<Inode>, blk: seq<Block>, nodes': seq<Inode>, blk': seq<Block>, except: set<Slot>)
    requires forall i :: 0 <= i < |nodes| ==> |nodes[i].addrs| == NDIRECT + 1
    requires forall i :: 0 <= i < |nodes'| ==> |nodes'[i].addrs| == NDIRECT + 1
  {
    && |nodes'| == |nodes|
    && forall i, s :: 0 <= i < |nodes| && 0 <= s < SLOTS && (i, s) !in except ==>
         RefAt(nodes', blk', i, s) == RefAt(nodes, blk, i, s)
  }

  // Blocks that are not read as indirect blocks may change without changing any slot.
  lemma BlockFrame(nodes: seq<Inode>, blk: seq<Block>, b: nat, x: Block)
    requires forall i :: 0 <= i < |nodes| ==> |nodes[i].addrs| == NDIRECT + 1
    requires b < |blk| && forall i :: 0 <= i < |nodes| ==> nodes[i].addrs[NDIRECT] != b || b == 0
    ensures SameRefs(nodes, blk, nodes, blk[b := x], {})
  {
  }

  // A bitmap block changes one bit.
  lemma BitFrame(sb: Super, blk: seq<Block>, r: nat, x: Block, on: bool)
    requires sb.Ok() && |blk| == sb.size && r < sb.size
    requires x == if on then SetBit(blk[r / BPB + sb.bmapstart], r % BPB) else DropBit(blk[r / BPB + sb.bmapstart], r % BPB)
    ensures forall b :: 0 <= b < sb.size ==>
              BitAt(sb, blk[r / BPB + sb.bmapstart := x], b) == if b == r then on else BitAt(sb, blk, b)
  {
    hide GetBit, SetBit, DropBit;
    var bb := r / BPB + sb.bmapstart;
    forall b | 0 <= b < sb.size
      ensures BitAt(sb, blk[bb := x], b) == if b == r then on else BitAt(sb, blk, b)
    {
      if b / BPB == r / BPB {
        SetBitGet(blk[bb], r % BPB, b % BPB);
        DropBitGet(blk[bb], r % BPB, b % BPB);
        if r % BPB == b % BPB {
          assert b == b / BPB * BPB + b % BPB && r == r / BPB * BPB + r % BPB;
        }
      } else {
        assert b / BPB + sb.bmapstart != bb;
      }
    }
  }

  // The indirect block of an inode lies in the data area and is owned.
  lemma IndirectOwned(sb: Super, nodes: seq<Inode>, blk: seq<Block>, own: map<nat, Slot>,
                      pend: set<nat>, stale: set<Slot>, i: nat)
    requires Own(sb, nodes, blk, own, pend, stale) && i < |nodes| && (i, NDIRECT) !in stale
    requires nodes[i].addrs[NDIRECT] != 0
    ensures var a := nodes[i].addrs[NDIRECT]; a in own && own[a] == (i, NDIRECT) && sb.DataStart() <= a < sb.size
  {
    assert RefAt(nodes, blk, i, NDIRECT) == nodes[i].addrs[NDIRECT];
    assert OwnedOk(sb, nodes, blk, own[nodes[i].addrs[NDIRECT]], nodes[i].addrs[NDIRECT]);
  }

  // Writing a block that no inode uses as its indirect block, outside the free map.
  lemma StoreKeeps(sb: Super, nodes: seq<Inode>, blk: seq<Block>, own: map<nat, Slot>,
                   pend: set<nat>, b: nat, x: Block)
    requires Own(sb, nodes, blk, own, pend, {}) && b < sb.size && !sb.IsBitmap(b)
    requires b in own ==> own[b].1 != NDIRECT
    ensures Own(sb, nodes, blk[b := x], own, pend, {})
    ensures SameRefs(nodes, blk, nodes, blk[b := x], {})
  {
    forall i | 0 <= i < |nodes| ensures nodes[i].addrs[NDIRECT] != b || b == 0 {
      if nodes[i].addrs[NDIRECT] != 0 {
        IndirectOwned(sb, nodes, blk, own, pend, {}, i);
      }
    }
    BlockFrame(nodes, blk, b, x);
    OwnSame(sb, nodes, blk, nodes, blk[b := x], own, pend, {});
  }

  // Equal slots and equal bits: the agreement carries over.
  lemma OwnSame(sb: Super, nodes: seq<Inode>, blk: seq<Block>, nodes': seq<Inode>, blk': seq<Block>,
                own: map<nat, Slot>, pend: set<nat>, stale: set<Slot>)
    requires Own(sb, nodes, blk, own, pend, stale) && Shape(sb, nodes', blk')
    requires SameRefs(nodes, blk, nodes', blk', {})
    requires forall b :: 0 <= b < sb.size ==> BitAt(sb, blk', b) == BitAt(sb, blk, b)
    ensures Own(sb, nodes', blk', own, pend, stale)
  {
    hide BitAt, RefAt;
    forall b | b in own ensures OwnedOk(sb, nodes', blk', own[b], b) {
      assert OwnedOk(sb, nodes, blk, own[b], b);
    }
  }

  // ---- the steps of balloc, bmap, bfree and itrunc ----

  function BitBlock(sb: Super, b: nat): nat { b / BPB + sb.bmapstart }

  // balloc's first half: a clear bit is set.
  lemma MarkKeeps(sb: Super, nodes: seq<Inode>, blk: seq<Block>, own: map<nat, Slot>, pend: set<nat>, r: nat)
    requires Own(sb, nodes, blk, own, pend, {}) && r < sb.size && !BitAt(sb, blk, r)
    ensures sb.DataStart() <= r && r !in own && r !in pend
    ensures var blk' := blk[BitBlock(sb, r) := SetBit(blk[BitBlock(sb, r)], r % BPB)];
      Own(sb, nodes, blk', own, pend + {r}, {}) && SameRefs(nodes, blk, nodes, blk', {})
  {
    hide BitAt, RefAt;
    var bb := BitBlock(sb, r);
    var x := SetBit(blk[bb], r % BPB);
    BitChange(sb, nodes, blk, own, pend, {}, r, x, true);
  }

  // Changing one bit of the free map leaves every slot alone.
  lemma BitChange(sb: Super, nodes: seq<Inode>, blk: seq<Block>, own: map<nat, Slot>,
                  pend: set<nat>, stale: set<Slot>, r: nat, x: Block, on: bool)
    requires Own(sb, nodes, blk, own, pend, stale) && r < sb.size
    requires forall i :: 0 <= i < |nodes| ==> (i, NDIRECT) !in stale
    requires x == if on then SetBit(blk[BitBlock(sb, r)], r % BPB) else DropBit(blk[BitBlock(sb, r)], r % BPB)
    ensures var blk' := blk[BitBlock(sb, r) := x];
      && Shape(sb, nodes, blk') && SameRefs(nodes, blk, nodes, blk', {})
      && forall b :: 0 <= b < sb.size ==> BitAt(sb, blk', b) == if b == r then on else BitAt(sb, blk, b)
  {
    var bb := BitBlock(sb, r);
    forall i | 0 <= i < |nodes| ensures nodes[i].addrs[NDIRECT] != bb || bb == 0 {
      if nodes[i].addrs[NDIRECT] != 0 {
        IndirectOwned(sb, nodes, blk, own, pend, stale, i);
      }
    }
    BlockFrame(nodes, blk, bb, x);
    BitFrame(sb, blk, r, x, on);
  }

  function PutAddr(nd: Inode, s: nat, r: Word): Inode
    requires |nd.addrs| == NDIRECT + 1 && s <= NDIRECT
  {
    nd.(addrs := nd.addrs[s := r])
  }

  // A block fresh from balloc goes into an empty address of an inode.
  lemma ClaimAddr(sb: Super, nodes: seq<Inode>, blk: seq<Block>, own: map<nat, Slot>, pend: set<nat>,
                  i: nat, s: nat, r: Word)
    requires Own(sb, nodes, blk, own, pend, {}) && i < |nodes| && s <= NDIRECT
    requires nodes[i].addrs[s] == 0 && r in pend && blk[r] == ZeroBlock()
    ensures var nodes' := nodes[i := PutAddr(nodes[i], s, r)];
      && Own(sb, nodes', blk, own[r := (i, s)], pend - {r}, {})
      && SameRefs(nodes, blk, nodes', blk, {(i, s)})
      && RefAt(nodes', blk, i, s) == r
  {
    hide GetWord, ZeroBlock, BitAt;
    var nodes' := nodes[i := PutAddr(nodes[i], s, r)];
    forall t | 0 <= t < SLOTS && t != s ensures Ref(nodes'[i], blk, t) == Ref(nodes[i], blk, t) {
      if s == NDIRECT && t > NDIRECT {
        ZeroBlockWords(t - NDIRECT - 1);
      }
    }
    ClaimSlot(sb, nodes, blk, nodes', blk, own, pend, i, s, r);
  }

  // A block fresh from balloc goes into an empty entry of the indirect block.
  lemma ClaimEntry(sb: Super, nodes: seq<Inode>, blk: seq<Block>, own: map<nat, Slot>, pend: set<nat>,
                   i: nat, s: nat, r: Word)
    requires Own(sb, nodes, blk, own, pend, {}) && i < |nodes| && NDIRECT < s < SLOTS
    requires nodes[i].addrs[NDIRECT] != 0 && RefAt(nodes, blk, i, s) == 0 && r in pend
    ensures var a := nodes[i].addrs[NDIRECT];
      && sb.DataStart() <= a < sb.size && a in own && own[a] == (i, NDIRECT)
      && var blk' := blk[a := SetWord(blk[a], s - NDIRECT - 1, r)];
      && Own(sb, nodes, blk', own[r := (i, s)], pend - {r}, {})
      && SameRefs(nodes, blk, nodes, blk', {(i, s)})
      && RefAt(nodes, blk', i, s) == r
  {
    hide GetWord, SetWord;
    var a := nodes[i].addrs[NDIRECT];
    IndirectOwned(sb, nodes, blk, own, pend, {}, i);
    var blk' := blk[a := SetWord(blk[a], s - NDIRECT - 1, r)];
    forall j, t | 0 <= j < |nodes| && 0 <= t < SLOTS && (j, t) != (i, s)
      ensures RefAt(nodes, blk', j, t) == RefAt(nodes, blk, j, t)
    {
      if nodes[j].addrs[NDIRECT] == a {
        IndirectOwned(sb, nodes, blk, own, pend, {}, j);
        if t > NDIRECT {
          GetSetWord(blk[a], s - NDIRECT - 1, r, t - NDIRECT - 1);
        }
      }
    }
    GetSetWord(blk[a], s - NDIRECT - 1, r, s - NDIRECT - 1);
    ClaimSlot(sb, nodes, blk, nodes, blk', own, pend, i, s, r);
  }

  lemma ClaimSlot(sb: Super, nodes: seq<Inode>, blk: seq<Block>, nodes': seq<Inode>, blk': seq<Block>,
                  own: map<nat, Slot>, pend: set<nat>, i: nat, s: nat, r: Word)
    requires Own(sb, nodes, blk, own, pend, {}) && Shape(sb, nodes', blk')
    requires i < |nodes| && s < SLOTS && RefAt(nodes, blk, i, s) == 0 && r in pend
    requires SameRefs(nodes, blk, nodes', blk', {(i, s)}) && RefAt(nodes', blk', i, s) == r
    requires forall b :: 0 <= b < sb.size ==> BitAt(sb, blk', b) == BitAt(sb, blk, b)
    ensures Own(sb, nodes', blk', own[r := (i, s)], pend - {r}, {})
  {
    hide BitAt, RefAt;
    var own' := own[r := (i, s)];
    forall b | b in own' ensures OwnedOk(sb, nodes', blk', own'[b], b) {
      if b != r {
        assert OwnedOk(sb, nodes, blk, own[b], b);
        assert own[b] != (i, s);
      }
    }
  }

  // bfree: an owned block loses its bit; its slot is stale until it is cleared.
  lemma FreeKeeps(sb: Super, nodes: seq<Inode>, blk: seq<Block>, own: map<nat, Slot>, stale: set<Slot>, b: nat)
    requires Own(sb, nodes, blk, own, {}, stale) && b in own
    requires forall i :: 0 <= i < |nodes| ==> (i, NDIRECT) !in stale
    ensures b < sb.size && BitAt(sb, blk, b)
    ensures var blk' := blk[BitBlock(sb, b) := DropBit(blk[BitBlock(sb, b)], b % BPB)];
      && Own(sb, nodes, blk', own - {b}, {}, stale + {own[b]})
      && SameRefs(nodes, blk, nodes, blk', {})
  {
    hide BitAt, RefAt;
    assert OwnedOk(sb, nodes, blk, own[b], b);
    var blk' := blk[BitBlock(sb, b) := DropBit(blk[BitBlock(sb, b)], b % BPB)];
    BitChange(sb, nodes, blk, own, {}, stale, b, blk'[BitBlock(sb, b)], false);
    DropOwned(sb, nodes, blk, blk', own, stale, b);
  }

  lemma DropOwned(sb: Super, nodes: seq<Inode>, blk: seq<Block>, blk': seq<Block>, own: map<nat, Slot>,
                  stale: set<Slot>, b: nat)
    requires Own(sb, nodes, blk, own, {}, stale) && b in own && b < sb.size && Shape(sb, nodes, blk')
    requires SameRefs(nodes, blk, nodes, blk', {})
    requires forall c :: 0 <= c < sb.size ==> BitAt(sb, blk', c) == if c == b then false else BitAt(sb, blk, c)
    ensures Own(sb, nodes, blk', own - {b}, {}, stale + {own[b]})
  {
    hide BitAt, RefAt;
    assert OwnedOk(sb, nodes, blk, own[b], b);
    forall c | c in own - {b} ensures OwnedOk(sb, nodes, blk', own[c], c) && own[c] != own[b] {
      assert OwnedOk(sb, nodes, blk, own[c], c);
    }
  }

  // A stale direct address is cleared.
  lemma ClearDirect(sb: Super, nodes: seq<Inode>, blk: seq<Block>, own: map<nat, Slot>, i: nat, s: nat)
    requires Own(sb, nodes, blk, own, {}, {(i, s)}) && i < |nodes| && s < NDIRECT
    ensures var nodes' := nodes[i := PutAddr(nodes[i], s, 0)];
      && Own(sb, nodes', blk, own, {}, {})
      && SameRefs(nodes, blk, nodes', blk, {(i, s)})
      && RefAt(nodes', blk, i, s) == 0
  {
    var nodes' := nodes[i := PutAddr(nodes[i], s, 0)];
    assert SameRefs(nodes, blk, nodes', blk, {(i, s)});
    assert RefAt(nodes', blk, i, s) == 0;
    hide BitAt, RefAt;
    ClearKeeps(sb, nodes, blk, nodes', own, {(i, s)});
  }

  // Clearing the address of a freed indirect block clears its entries too.
  lemma ClearIndirect(sb: Super, nodes: seq<Inode>, blk: seq<Block>, own: map<nat, Slot>,
                      stale: set<Slot>, i: nat)
    requires Own(sb, nodes, blk, own, {}, stale) && i < |nodes|
    requires forall x :: x in stale ==> x.0 == i && NDIRECT <= x.1 < SLOTS
    requires forall t :: NDIRECT <= t < SLOTS ==> (i, t) in stale || RefAt(nodes, blk, i, t) == 0
    ensures var nodes' := nodes[i := PutAddr(nodes[i], NDIRECT, 0)];
      && Own(sb, nodes', blk, own, {}, {})
      && SameRefs(nodes, blk, nodes', blk, stale)
      && forall t :: NDIRECT <= t < SLOTS ==> RefAt(nodes', blk, i, t) == 0
  {
    var nodes' := nodes[i := PutAddr(nodes[i], NDIRECT, 0)];
    assert forall t :: NDIRECT <= t < SLOTS ==> RefAt(nodes', blk, i, t) == 0;
    assert SameRefs(nodes, blk, nodes', blk, stale);
    assert forall x :: x in stale ==> RefAt(nodes', blk, x.0, x.1) == 0;
    hide BitAt, RefAt;
    ClearKeeps(sb, nodes, blk, nodes', own, stale);
  }

  lemma ClearKeeps(sb: Super, nodes: seq<Inode>, blk: seq<Block>, nodes': seq<Inode>,
                   own: map<nat, Slot>, stale: set<Slot>)
    requires Own(sb, nodes, blk, own, {}, stale) && Shape(sb, nodes', blk)
    requires SameRefs(nodes, blk, nodes', blk, stale)
    requires forall x :: x in stale ==> x.0 < |nodes| && x.1 < SLOTS && RefAt(nodes', blk, x.0, x.1) == 0
    ensures Own(sb, nodes', blk, own, {}, {})
  {
    hide BitAt, RefAt;
    forall i, s | (i, s) in stale ensures RefAt(nodes', blk, i, s) == 0 {
      var x := (i, s);
    }
    forall i, s | 0 <= i < |nodes| && 0 <= s < SLOTS && RefAt(nodes', blk, i, s) != 0
      ensures RefAt(nodes', blk, i, s) in own && own[RefAt(nodes', blk, i, s)] == (i, s)
    {
    }
    forall b | b in own ensures OwnedOk(sb, nodes', blk, own[b], b) {
      assert OwnedOk(sb, nodes, blk, own[b], b);
    }
  }
}
