// How many blocks are free, and how many a write needs (fs.c: balloc, bmap, writei).
module FreeSpace {
  import opened Params
  import opened Blocks
  import opened FsState
  import opened FsGrow
  import opened FileBytes

  // The blocks whose bit is clear.
  ghost function FreeBlocks(sb: Super, blk: seq<Block>): set<nat>
    requires sb.Ok() && |blk| == sb.size
  {
    set b: nat | b < sb.size && !BitAt(sb, blk, b)
  }

  function Numbers(lo: nat, hi: nat): (r: set<nat>)
    requires lo <= hi
    ensures |r| == hi - lo && forall b: nat :: b in r <==> lo <= b < hi
  {
    if lo == hi then {} else Numbers(lo, hi - 1) + {hi - 1}
  }

  lemma FreeIs(sb: Super, nodes: seq<Inode>, blk: seq<Block>, own: map<nat, Slot>)
    requires Consistent(sb, nodes, blk, own)
    ensures own.Keys <= Numbers(sb.DataStart(), sb.size)
    ensures FreeBlocks(sb, blk) == Numbers(sb.DataStart(), sb.size) - own.Keys
  {
    hide BitAt, RefAt;
    forall b | b in own ensures sb.DataStart() <= b < sb.size {
      assert OwnedOk(sb, nodes, blk, own[b], b);
    }
  }

  lemma FullMeans(sb: Super, blk: seq<Block>)
    requires sb.Ok() && |blk| == sb.size
    ensures Full(sb, blk) <==> |FreeBlocks(sb, blk)| == 0
  {
    hide BitAt;
    if |FreeBlocks(sb, blk)| == 0 {
      assert FreeBlocks(sb, blk) == {};
      forall b | 0 <= b < sb.size ensures BitAt(sb, blk, b) {
        assert b !in FreeBlocks(sb, blk);
      }
    }
  }

  // Between operations the blocks of the data area are free or have one owner.
  lemma FreeCount(sb: Super, nodes: seq<Inode>, blk: seq<Block>, own: map<nat, Slot>)
    requires Consistent(sb, nodes, blk, own)
    ensures |FreeBlocks(sb, blk)| + |own| == sb.size - sb.DataStart()
    ensures Full(sb, blk) <==> |FreeBlocks(sb, blk)| == 0
  {
    FreeIs(sb, nodes, blk, own);
    FullMeans(sb, blk);
    hide Consistent, FreeBlocks, Full, Numbers;
    Difference(Numbers(sb.DataStart(), sb.size), own.Keys);
    assert |own| == |own.Keys|;
  }

  lemma Difference(x: set<nat>, y: set<nat>)
    requires y <= x
    ensures |x - y| == |x| - |y|
  {
  }

  lemma Smaller(x: set<nat>, y: set<nat>)
    requires x <= y
    ensures |x| <= |y|
  {
    Difference(y, x);
  }

  // ---- the slots that a range of file blocks needs ----

  // The slots that bmap looks at for block bn of a file.
  function MapSlots(bn: nat): set<nat> { if bn < NDIRECT then {FileSlot(bn)} else {FileSlot(bn), NDIRECT} }

  // Those for blocks lo .. hi - 1.
  function RangeSlots(lo: nat, hi: nat): set<nat> {
    if hi <= lo then {} else RangeSlots(lo, hi - 1) + MapSlots(hi - 1)
  }

  lemma {:induction false} RangeMore(lo: nat, mid: nat, hi: nat)
    requires mid <= hi
    ensures RangeSlots(lo, mid) <= RangeSlots(lo, hi)
    decreases hi
  {
    if mid < hi { RangeMore(lo, mid, hi - 1); }
  }

  // Those of the slots of inode i that are empty.
  ghost function Missing(sb: Super, nodes: seq<Inode>, blk: seq<Block>, i: nat, slots: set<nat>): set<nat>
    requires Shape(sb, nodes, blk) && i < |nodes|
  {
    set s | s in slots && s < SLOTS && RefAt(nodes, blk, i, s) == 0
  }

  // The blocks that writing the file blocks lo .. hi - 1 of inode i takes from the free map.
  ghost function BlocksNeeded(sb: Super, nodes: seq<Inode>, blk: seq<Block>, i: nat, lo: nat, hi: nat): nat
    requires Shape(sb, nodes, blk) && i < |nodes|
  {
    |Missing(sb, nodes, blk, i, RangeSlots(lo, hi))|
  }

  // The slots are filled now, each that was empty with one more block, and the others are as before.
  ghost predicate Filled(sb: Super, o0: map<nat, Slot>, o1: map<nat, Slot>, n0: seq<Inode>, b0: seq<Block>, n1: seq<Inode>, b1: seq<Block>,
                         i: nat, slots: set<nat>)
    requires Shape(sb, n0, b0) && Shape(sb, n1, b1) && i < |n0|
  {
    && |o1| == |o0| + |Missing(sb, n0, b0, i, slots)| && Missing(sb, n1, b1, i, slots) == {}
    && forall s :: 0 <= s < SLOTS && s !in slots ==> RefAt(n1, b1, i, s) == RefAt(n0, b0, i, s)
  }

  lemma FilledNone(sb: Super, o: map<nat, Slot>, n: seq<Inode>, b: seq<Block>, i: nat, slots: set<nat>)
    requires Shape(sb, n, b) && i < |n| && Missing(sb, n, b, i, slots) == {}
    ensures Filled(sb, o, o, n, b, n, b, i, slots)
  {
  }

  lemma FilledAlready(sb: Super, o: map<nat, Slot>, n: seq<Inode>, b: seq<Block>, i: nat, s: nat)
    requires Shape(sb, n, b) && i < |n| && s < SLOTS && RefAt(n, b, i, s) != 0
    ensures Filled(sb, o, o, n, b, n, b, i, {s})
  {
    hide RefAt;
    FilledNone(sb, o, n, b, i, {s});
  }

  // One slot was filled.
  lemma FilledOne(sb: Super, o0: map<nat, Slot>, n0: seq<Inode>, b0: seq<Block>, n1: seq<Inode>, b1: seq<Block>, i: nat, s: nat, r: nat)
    requires Shape(sb, n0, b0) && Shape(sb, n1, b1) && i < |n0| && s < SLOTS && r !in o0
    requires Grown(sb, n0, b0, o0, n1, b1, o0[r := (i, s)], i, {s})
    requires RefAt(n0, b0, i, s) == 0 && RefAt(n1, b1, i, s) != 0
    ensures Filled(sb, o0, o0[r := (i, s)], n0, b0, n1, b1, i, {s}) && |Missing(sb, n0, b0, i, {s})| == 1
  {
    hide RefAt;
    assert Missing(sb, n0, b0, i, {s}) == {s};
    assert o0[r := (i, s)].Keys == o0.Keys + {r};
    assert |o0[r := (i, s)]| == |o0[r := (i, s)].Keys| && |o0| == |o0.Keys|;
  }

  // balloc into an empty address.
  lemma AddrFilled(sb: Super, n: seq<Inode>, b: seq<Block>, o: map<nat, Slot>, i: nat, s: nat, r: Word)
    requires Shape(sb, n, b) && Consistent(sb, n, b, o) && i < |n| && s <= NDIRECT && n[i].addrs[s] == 0
    requires r < sb.size && !BitAt(sb, b, r)
    ensures r != 0 && r !in o
    ensures var n', b', o' := n[i := PutAddr(n[i], s, r)], Allocated(sb, b, r), o[r := (i, s)];
      && Shape(sb, n', b') && Consistent(sb, n', b', o') && Grown(sb, n, b, o, n', b', o', i, {s})
      && Filled(sb, o, o', n, b, n', b', i, {s}) && RefAt(n', b', i, s) == r && b'[r] == ZeroBlock()
  {
    AddrValue(sb, n, b, i, s);
    AllocAddr(sb, n, b, o, i, s, r);
    hide RefAt, BitAt, Allocated, Filled, Grown;
    FilledOne(sb, o, n, b, n[i := PutAddr(n[i], s, r)], Allocated(sb, b, r), i, s, r);
  }

  lemma FilledTrans(sb: Super, o0: map<nat, Slot>, o1: map<nat, Slot>, o2: map<nat, Slot>, n0: seq<Inode>, b0: seq<Block>,
                    n1: seq<Inode>, b1: seq<Block>, n2: seq<Inode>, b2: seq<Block>, i: nat, x: set<nat>, y: set<nat>)
    requires Shape(sb, n0, b0) && Shape(sb, n1, b1) && Shape(sb, n2, b2) && i < |n0|
    requires Filled(sb, o0, o1, n0, b0, n1, b1, i, x) && Filled(sb, o1, o2, n1, b1, n2, b2, i, y)
    ensures Filled(sb, o0, o2, n0, b0, n2, b2, i, x + y)
  {
    MissingMore(sb, n0, b0, n1, b1, i, x, y);
    hide RefAt;
    forall s | s in x + y && s < SLOTS ensures RefAt(n2, b2, i, s) != 0 {
      if s in y {
        assert s !in Missing(sb, n2, b2, i, y);
      } else {
        assert s !in Missing(sb, n1, b1, i, x);
      }
    }
  }

  // What is missing for more slots, once the first ones are filled.
  lemma MissingMore(sb: Super, n0: seq<Inode>, b0: seq<Block>, n1: seq<Inode>, b1: seq<Block>, i: nat, x: set<nat>, y: set<nat>)
    requires Shape(sb, n0, b0) && Shape(sb, n1, b1) && i < |n0| && Missing(sb, n1, b1, i, x) == {}
    requires forall s :: 0 <= s < SLOTS && s !in x ==> RefAt(n1, b1, i, s) == RefAt(n0, b0, i, s)
    ensures |Missing(sb, n0, b0, i, x + y)| == |Missing(sb, n0, b0, i, x)| + |Missing(sb, n1, b1, i, y)|
  {
    hide RefAt;
    var a, c := Missing(sb, n0, b0, i, x), Missing(sb, n1, b1, i, y);
    forall s | s in c ensures s !in x {
      assert s !in Missing(sb, n1, b1, i, x);
    }
    assert Missing(sb, n0, b0, i, x + y) == a + c;
    assert a !! c;
  }

  // Storing data changes no slot.
  lemma FilledStored(sb: Super, o0: map<nat, Slot>, o1: map<nat, Slot>, n0: seq<Inode>, b0: seq<Block>, n1: seq<Inode>, b1: seq<Block>,
                     b2: seq<Block>, i: nat, slots: set<nat>)
    requires Shape(sb, n0, b0) && Shape(sb, n1, b1) && Shape(sb, n1, b2) && i < |n0|
    requires Filled(sb, o0, o1, n0, b0, n1, b1, i, slots) && SameRefs(n1, b1, n1, b2, {})
    ensures Filled(sb, o0, o1, n0, b0, n1, b2, i, slots)
  {
    hide RefAt;
    forall s | 0 <= s < SLOTS ensures RefAt(n1, b2, i, s) == RefAt(n1, b1, i, s) {
      assert (i, s) !in {};
    }
  }

  lemma RangeStep(lo: nat, hi: nat, bn: nat)
    requires lo <= bn <= hi <= bn + 1
    ensures RangeSlots(lo, hi) + MapSlots(bn) == RangeSlots(lo, bn + 1)
  {
    if hi == bn + 1 {
      assert MapSlots(bn) <= RangeSlots(lo, hi);
    }
  }

  // The slots before and after a turn of writei's loop.
  lemma TurnSlots(off: nat, o: nat, m: nat, n: nat)
    requires off <= o && 0 < m <= BSIZE - o % BSIZE && o + m <= off + n
    ensures var lo, hi, bn, end := off / BSIZE, (o + BSIZE - 1) / BSIZE, o / BSIZE, (off + n + BSIZE - 1) / BSIZE;
      RangeSlots(lo, hi) + MapSlots(bn) == RangeSlots(lo, bn + 1) <= RangeSlots(lo, end)
  {
    var lo, hi, bn, end := off / BSIZE, (o + BSIZE - 1) / BSIZE, o / BSIZE, (off + n + BSIZE - 1) / BSIZE;
    assert lo <= bn <= hi <= bn + 1 <= end;
    RangeStep(lo, hi, bn);
    RangeMore(lo, bn + 1, end);
  }

  // A block of a file is no indirect block.
  lemma DataSameRefs(sb: Super, n: seq<Inode>, b: seq<Block>, o: map<nat, Slot>, i: nat, bn: nat, x: Block)
    requires Consistent(sb, n, b, o) && i < |n| && bn < MAXFILE && RefAt(n, b, i, FileSlot(bn)) != 0
    ensures var a := RefAt(n, b, i, FileSlot(bn)); a < |b| && SameRefs(n, b, n, b[a := x], {})
  {
    var a := RefAt(n, b, i, FileSlot(bn));
    RefInRange(sb, n, b, o, i, FileSlot(bn));
    forall j | 0 <= j < |n| ensures n[j].addrs[NDIRECT] != a {
      AddrValue(sb, n, b, j, NDIRECT);
      if n[j].addrs[NDIRECT] != 0 {
        RefInRange(sb, n, b, o, j, NDIRECT);
      }
    }
    hide Consistent, RefAt;
    BlockFrame(n, b, a, x);
  }

  // A file without holes misses nothing for the block in which its end, or a place before, lies.
  lemma NoneMissing(sb: Super, nodes: seq<Inode>, blk: seq<Block>, i: nat, bn: nat)
    requires Shape(sb, nodes, blk) && i < |nodes| && NoHoles(nodes[i], blk) && bn * BSIZE < nodes[i].size
    ensures Missing(sb, nodes, blk, i, MapSlots(bn)) == {}
  {
    assert bn < MAXFILE;
    assert Ref(nodes[i], blk, FileSlot(bn)) != 0;
  }

  // Before the first turn of writei's loop, in a file that reaches to byte off.
  lemma StartsFilled(sb: Super, o: map<nat, Slot>, n: seq<Inode>, b: seq<Block>, i: nat, off: nat)
    requires Shape(sb, n, b) && i < |n| && NoHoles(n[i], b) && off <= n[i].size
    ensures Filled(sb, o, o, n, b, n, b, i, RangeSlots(off / BSIZE, (off + BSIZE - 1) / BSIZE))
  {
    var lo, hi := off / BSIZE, (off + BSIZE - 1) / BSIZE;
    if hi > lo {
      assert hi == lo + 1 && lo * BSIZE < off;
      NoneMissing(sb, n, b, i, lo);
      assert RangeSlots(lo, lo) == {};
      assert RangeSlots(lo, hi) == MapSlots(lo);
    }
    hide RefAt, MappedTo, MapSlots;
    FilledNone(sb, o, n, b, i, RangeSlots(lo, hi));
  }

  // ---- enough or not ----

  // Fewer blocks are free than the slots need.
  ghost predicate Short(sb: Super, nodes: seq<Inode>, blk: seq<Block>, i: nat, slots: set<nat>)
    requires Shape(sb, nodes, blk) && i < |nodes|
  {
    |FreeBlocks(sb, blk)| < |Missing(sb, nodes, blk, i, slots)|
  }

  lemma ShortOne(sb: Super, n: seq<Inode>, b: seq<Block>, i: nat, s: nat)
    requires Shape(sb, n, b) && i < |n| && s < SLOTS
    ensures Short(sb, n, b, i, {s}) <==> RefAt(n, b, i, s) == 0 && Full(sb, b)
  {
    FullMeans(sb, b);
    hide RefAt, Full, FreeBlocks;
    assert Missing(sb, n, b, i, {s}) == if RefAt(n, b, i, s) == 0 then {s} else {};
  }

  // What is left after the slots were filled; so there were enough.
  lemma FilledFree(sb: Super, o0: map<nat, Slot>, o1: map<nat, Slot>, n0: seq<Inode>, b0: seq<Block>, n1: seq<Inode>, b1: seq<Block>,
                   i: nat, slots: set<nat>)
    requires Consistent(sb, n0, b0, o0) && Consistent(sb, n1, b1, o1) && i < |n0|
    requires Filled(sb, o0, o1, n0, b0, n1, b1, i, slots)
    ensures |FreeBlocks(sb, b0)| == |FreeBlocks(sb, b1)| + |Missing(sb, n0, b0, i, slots)|
    ensures !Short(sb, n0, b0, i, slots)
  {
    FreeCount(sb, n0, b0, o0);
    FreeCount(sb, n1, b1, o1);
  }

  // Too few blocks are left for more slots, so there were too few for all.
  lemma TooFew(sb: Super, o0: map<nat, Slot>, o1: map<nat, Slot>, n0: seq<Inode>, b0: seq<Block>, n1: seq<Inode>, b1: seq<Block>,
               i: nat, slots: set<nat>, more: set<nat>, all: set<nat>)
    requires Consistent(sb, n0, b0, o0) && Consistent(sb, n1, b1, o1) && i < |n0|
    requires Filled(sb, o0, o1, n0, b0, n1, b1, i, slots) && slots + more <= all && Short(sb, n1, b1, i, more)
    ensures Short(sb, n0, b0, i, all)
  {
    FilledFree(sb, o0, o1, n0, b0, n1, b1, i, slots);
    hide Consistent, RefAt, FreeBlocks;
    MissingMore(sb, n0, b0, n1, b1, i, slots, more);
    Smaller(Missing(sb, n0, b0, i, slots + more), Missing(sb, n0, b0, i, all));
  }

  lemma SpaceLeft(sb: Super, o0: map<nat, Slot>, o1: map<nat, Slot>, n0: seq<Inode>, b0: seq<Block>, n1: seq<Inode>, b1: seq<Block>, k: nat)
    requires Consistent(sb, n0, b0, o0) && Consistent(sb, n1, b1, o1) && |o1| == |o0| + k
    ensures |FreeBlocks(sb, b0)| == |FreeBlocks(sb, b1)| + k
  {
    FreeCount(sb, n0, b0, o0);
    FreeCount(sb, n1, b1, o1);
  }

  lemma ShortMore(sb: Super, n: seq<Inode>, b: seq<Block>, i: nat, slots: set<nat>, all: set<nat>)
    requires Shape(sb, n, b) && i < |n| && slots <= all && Short(sb, n, b, i, slots)
    ensures Short(sb, n, b, i, all)
  {
    hide RefAt, FreeBlocks;
    Smaller(Missing(sb, n, b, i, slots), Missing(sb, n, b, i, all));
  }
}
