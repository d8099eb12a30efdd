// The steps of itrunc: one owned block after another loses its bit and then its slot.
module Truncate {
  import opened Params
  import opened Blocks
  import opened Bits
  import opened FsState
  import opened FsGrow
  import opened FileBytes
  import opened FileFrame
  import opened Dinode

  // Since (n0, b0, o0, l0) only blocks of inode i were given up, and only the free map was logged.
  ghost predicate Cut(sb: Super, n0: seq<Inode>, b0: seq<Block>, o0: map<nat, Slot>, l0: set<nat>,
                      n: seq<Inode>, b: seq<Block>, o: map<nat, Slot>, l: set<nat>, i: nat)
    requires Shape(sb, n0, b0) && Shape(sb, n, b)
  {
    && |n| == |n0| && i < |n0| && n[i] == n0[i].(addrs := n[i].addrs)
    && OthersSame(n0, b0, n, b, i) && DiskInodesSame(sb, b0, b)
    && (forall c :: c in o ==> c in o0 && o[c] == o0[c])
    && (forall c :: c in o0 && o0[c].0 != i ==> c in o)
    && OnlyLogged(sb, l0, l, {})
  }

  ghost predicate StaleOf(stale: set<Slot>, i: nat, hi: nat) {
    forall x :: x in stale ==> x.0 == i && NDIRECT < x.1 < hi
  }

  lemma CutStart(sb: Super, n: seq<Inode>, b: seq<Block>, o: map<nat, Slot>, l: set<nat>, i: nat)
    requires Shape(sb, n, b) && i < |n|
    ensures Cut(sb, n, b, o, l, n, b, o, l, i)
  {
    OthersRefl(sb, n, b, i);
  }

  lemma CutFree(sb: Super, n0: seq<Inode>, b0: seq<Block>, o0: map<nat, Slot>, l0: set<nat>,
                n: seq<Inode>, b: seq<Block>, o: map<nat, Slot>, l: set<nat>, i: nat,
                stale: set<Slot>, c: nat)
    requires Shape(sb, n0, b0) && Shape(sb, n, b) && Own(sb, n, b, o, {}, stale)
    requires Cut(sb, n0, b0, o0, l0, n, b, o, l, i)
    requires c in o && o[c].0 == i && StaleOf(stale, i, SLOTS)
    ensures c < sb.size && BitAt(sb, b, c)
    ensures var b' := b[BitBlock(sb, c) := DropBit(b[BitBlock(sb, c)], c % BPB)];
      && Own(sb, n, b', o - {c}, {}, stale + {o[c]})
      && SameRefs(n, b, n, b', {})
      && Cut(sb, n0, b0, o0, l0, n, b', o - {c}, l + {BitBlock(sb, c)}, i)
  {
    hide BitAt, RefAt, DropBit, OthersSame, DiskInodesSame, SameRefs;
    FreeKeeps(sb, n, b, o, stale, c);
    var b' := b[BitBlock(sb, c) := DropBit(b[BitBlock(sb, c)], c % BPB)];
    BitBlockIsBitmap(sb, c);
    FreeOthers(sb, n, b, o, stale, i, BitBlock(sb, c), b'[BitBlock(sb, c)]);
    hide Own;
    OthersTrans(n0, b0, n, b, n, b', i);
    BitmapDisk(sb, b, BitBlock(sb, c), b'[BitBlock(sb, c)]);
    DiskTrans(sb, b0, b, b');
  }

  lemma BitmapDisk(sb: Super, b: seq<Block>, a: nat, x: Block)
    requires sb.Ok() && |b| == sb.size && sb.IsBitmap(a)
    ensures DiskInodesSame(sb, b, b[a := x])
  {
  }

  lemma FreeOthers(sb: Super, n: seq<Inode>, b: seq<Block>, o: map<nat, Slot>, stale: set<Slot>,
                   i: nat, a: nat, x: Block)
    requires Own(sb, n, b, o, {}, stale) && StaleOf(stale, i, SLOTS)
    requires sb.IsBitmap(a) && SameRefs(n, b, n, b[a := x], {})
    ensures OthersSame(n, b, n, b[a := x], i)
  {
    hide RefAt, BitAt;
    var b' := b[a := x];
    forall j | 0 <= j < |n| && j != i ensures SameFile(n, b, n, b', j) {
      forall s | 0 <= s < SLOTS ensures SameSlot(n, b, n, b', j, s) {
        var r := RefAt(n, b, j, s);
        if r != 0 {
          assert OwnedOk(sb, n, b, o[r], r);
        }
      }
    }
  }

  // The slot of the freed block is cleared.
  lemma CutClear(sb: Super, n0: seq<Inode>, b0: seq<Block>, o0: map<nat, Slot>, l0: set<nat>,
                 n: seq<Inode>, b: seq<Block>, o: map<nat, Slot>, l: set<nat>, i: nat, s: nat, stale: set<Slot>)
    requires Shape(sb, n0, b0) && Shape(sb, n, b) && s <= NDIRECT
    requires Cut(sb, n0, b0, o0, l0, n, b, o, l, i)
    requires SameRefs(n, b, n[i := PutAddr(n[i], s, 0)], b, stale) && forall x :: x in stale ==> x.0 == i
    ensures Cut(sb, n0, b0, o0, l0, n[i := PutAddr(n[i], s, 0)], b, o, l, i)
  {
    var n' := n[i := PutAddr(n[i], s, 0)];
    hide RefAt;
    forall j | 0 <= j < |n| && j != i ensures SameFile(n, b, n', b, j) {
      forall t | 0 <= t < SLOTS ensures SameSlot(n, b, n', b, j, t) {
        assert (j, t) !in stale;
      }
    }
    OthersTrans(n0, b0, n, b, n', b, i);
  }

  // What is left when the size is set to 0 and the inode stored.
  ghost predicate Emptied(n: seq<Inode>, b: seq<Block>, i: nat)
    requires i < |n| && |n[i].addrs| == NDIRECT + 1
  {
    forall s :: 0 <= s < SLOTS ==> RefAt(n, b, i, s) == 0
  }

  lemma EmptyOwn(sb: Super, n: seq<Inode>, b: seq<Block>, o: map<nat, Slot>, i: nat)
    requires Shape(sb, n, b) && Consistent(sb, n, b, o) && i < |n| && Emptied(n, b, i)
    ensures forall c :: c in o ==> o[c].0 != i
  {
    hide RefAt, BitAt;
    forall c | c in o ensures o[c].0 != i {
      assert OwnedOk(sb, n, b, o[c], c);
    }
  }

  // The blocks of inode i are free again, every other bit is as before.
  lemma Freed(sb: Super, n0: seq<Inode>, b0: seq<Block>, o0: map<nat, Slot>,
              n: seq<Inode>, b: seq<Block>, o: map<nat, Slot>, i: nat, c: nat)
    requires Consistent(sb, n0, b0, o0) && Consistent(sb, n, b, o) && c < sb.size
    requires forall d :: d in o ==> d in o0 && o[d] == o0[d]
    requires forall d :: d in o0 && o0[d].0 != i ==> d in o
    requires forall d :: d in o ==> o[d].0 != i
    ensures BitAt(sb, b, c) <==> BitAt(sb, b0, c) && !(c in o0 && o0[c].0 == i)
  {
    hide RefAt, BitAt;
    if c in o0 {
      assert OwnedOk(sb, n0, b0, o0[c], c);
    }
  }

  // A filled slot that is not stale is owned.
  lemma OwnedSlot(sb: Super, n: seq<Inode>, b: seq<Block>, o: map<nat, Slot>, stale: set<Slot>, i: nat, s: nat)
    requires Own(sb, n, b, o, {}, stale) && i < |n| && s < SLOTS && (i, s) !in stale && RefAt(n, b, i, s) != 0
    ensures RefAt(n, b, i, s) in o && o[RefAt(n, b, i, s)] == (i, s)
  {
  }

  lemma EmptySize(sb: Super, n: seq<Inode>, b: seq<Block>, i: nat)
    requires Shape(sb, n, b) && i < |n| && Emptied(n, b, i)
    ensures var n' := n[i := n[i].(size := 0)];
      Emptied(n', b, i) && NoHoles(n'[i], b) && Content(n'[i], b) == []
  {
    var n' := n[i := n[i].(size := 0)];
    forall s | 0 <= s < SLOTS ensures RefAt(n', b, i, s) == 0 {
      assert RefAt(n, b, i, s) == 0;
    }
  }

  lemma EmptyKept(n: seq<Inode>, b: seq<Block>, b': seq<Block>, i: nat)
    requires i < |n| && (forall j :: 0 <= j < |n| ==> |n[j].addrs| == NDIRECT + 1) && Emptied(n, b, i)
    requires SameRefs(n, b, n, b', {})
    ensures Emptied(n, b', i)
  {
    hide RefAt;
  }

  // itrunc's last step: the inode is stored with size 0.
  lemma TruncDone(sb: Super, n0: seq<Inode>, b0: seq<Block>, o0: map<nat, Slot>, l0: set<nat>,
                  n: seq<Inode>, b: seq<Block>, o: map<nat, Slot>, l: set<nat>, i: nat)
    requires Shape(sb, n0, b0) && Consistent(sb, n0, b0, o0) && Shape(sb, n, b) && Consistent(sb, n, b, o)
    requires Cut(sb, n0, b0, o0, l0, n, b, o, l, i) && Emptied(n, b, i)
    ensures var n' := n[i := n[i].(size := 0)]; var a := sb.IBlock(i);
      && a < sb.size && var b' := b[a := PutInode(b[a], i % IPB, n'[i])];
      && Shape(sb, n', b) && Consistent(sb, n', b, o) && Consistent(sb, n', b', o)
      && Emptied(n', b', i) && NoHoles(n'[i], b') && Content(n'[i], b') == []
      && n'[i] == n0[i].(size := 0, addrs := n'[i].addrs)
      && OthersSame(n0, b0, n', b', i) && KeepsSynced(sb, n0, b0, n', b') && Synced(sb, n', b', i)
      && OnlyLogged(sb, l0, l + {a}, {a})
      && forall c :: 0 <= c < sb.size ==> (BitAt(sb, b', c) <==> BitAt(sb, b0, c) && !(c in o0 && o0[c].0 == i))
  {
    var n' := n[i := n[i].(size := 0)];
    EmptySize(sb, n, b, i);
    hide RefAt, BitAt, Own, Holds, MappedTo, PutInode, GetInode, OthersSame, Content, DiskInode, Emptied, DiskInodesSame, SameRefs;
    SizeKeeps(sb, n, b, o, i, 0);
    UpdateKeeps(sb, n', b, o, i);
    var b' := b[sb.IBlock(i) := PutInode(b[sb.IBlock(i)], i % IPB, n'[i])];
    EmptyKept(n', b, b', i);
    HoldsContent(n'[i], b);
    HoldsContent(n'[i], b');
    assert Holds(n'[i], b', []);
    OthersTrans(n0, b0, n, b, n', b, i);
    OthersTrans(n0, b0, n', b, n', b', i);
    FinishSynced(sb, n0, b0, n, b, n', b', i);
    EmptyOwn(sb, n', b', o, i);
    forall c | 0 <= c < sb.size
      ensures BitAt(sb, b', c) <==> BitAt(sb, b0, c) && !(c in o0 && o0[c].0 == i)
    {
      Freed(sb, n0, b0, o0, n', b', o, i, c);
    }
  }

  // With the direct addresses and the indirect block's entries gone, no slot is left.
  lemma AllEmpty(sb: Super, n: seq<Inode>, b: seq<Block>, i: nat)
    requires Shape(sb, n, b) && i < |n|
    requires forall s :: 0 <= s < NDIRECT ==> n[i].addrs[s] == 0
    requires forall s :: NDIRECT <= s < SLOTS ==> RefAt(n, b, i, s) == 0
    ensures Emptied(n, b, i)
  {
    forall s | 0 <= s < SLOTS ensures RefAt(n, b, i, s) == 0 {
      if s < NDIRECT { AddrValue(sb, n, b, i, s); }
    }
  }

  lemma NoIndirect(n: seq<Inode>, b: seq<Block>, i: nat)
    requires i < |n| && |n[i].addrs| == NDIRECT + 1 && n[i].addrs[NDIRECT] == 0
    ensures forall s :: NDIRECT <= s < SLOTS ==> RefAt(n, b, i, s) == 0
  {
  }

  lemma EntriesRead(sb: Super, n: seq<Inode>, b: seq<Block>, o: map<nat, Slot>, i: nat)
    requires Shape(sb, n, b) && Consistent(sb, n, b, o) && i < |n| && n[i].addrs[NDIRECT] != 0
    ensures var a := n[i].addrs[NDIRECT];
      && a < sb.size && a in o && o[a] == (i, NDIRECT)
      && forall s :: NDIRECT < s < SLOTS ==> RefAt(n, b, i, s) == GetWord(b[a], s - NDIRECT - 1)
  {
    hide GetWord, Own;
    IndirectOwned(sb, n, b, o, {}, {}, i);
  }

  lemma OwnedIndirect(sb: Super, n: seq<Inode>, b: seq<Block>, o: map<nat, Slot>, stale: set<Slot>, i: nat)
    requires Own(sb, n, b, o, {}, stale) && i < |n| && StaleOf(stale, i, SLOTS) && n[i].addrs[NDIRECT] != 0
    ensures n[i].addrs[NDIRECT] in o && o[n[i].addrs[NDIRECT]] == (i, NDIRECT)
  {
    assert (i, NDIRECT) !in stale;
    AddrValue(sb, n, b, i, NDIRECT);
    hide RefAt, BitAt;
    assert RefAt(n, b, i, NDIRECT) in o;
  }

  lemma StaleKept(n: seq<Inode>, b: seq<Block>, b': seq<Block>, stale: set<Slot>, i: nat)
    requires i < |n| && forall j :: 0 <= j < |n| ==> |n[j].addrs| == NDIRECT + 1
    requires SameRefs(n, b, n, b', {}) && (i, NDIRECT) in stale
    requires forall s :: NDIRECT < s < SLOTS ==> (i, s) in stale || RefAt(n, b, i, s) == 0
    ensures forall s :: NDIRECT <= s < SLOTS ==> (i, s) in stale || RefAt(n, b', i, s) == 0
  {
    hide RefAt;
  }
}
