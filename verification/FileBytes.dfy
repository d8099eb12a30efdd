// The byte string a file stands for, and what a grown slot or a stored block does to it.
module FileBytes {
  import opened Blocks
  import opened Bits
  import opened FsState
  import opened FsGrow

  const MAXBYTES: nat := MAXFILE * BSIZE

  // The first `len` bytes of the file lie in mapped blocks.
  predicate MappedTo(nd: Inode, blk: seq<Block>, len: nat)
    requires |nd.addrs| == NDIRECT + 1
  {
    && len <= MAXBYTES
    && forall bn :: 0 <= bn < MAXFILE && bn * BSIZE < len ==> 0 < Ref(nd, blk, FileSlot(bn)) < |blk|
  }

  // No holes below the size.
  predicate NoHoles(nd: Inode, blk: seq<Block>)
    requires |nd.addrs| == NDIRECT + 1
  {
    MappedTo(nd, blk, nd.size)
  }

  function FileByte(nd: Inode, blk: seq<Block>, p: nat): Byte
    requires |nd.addrs| == NDIRECT + 1 && p < MAXBYTES
  {
    var a := Ref(nd, blk, FileSlot(p / BSIZE));
    if a < |blk| then blk[a][p % BSIZE] else 0
  }

  function Bytes(nd: Inode, blk: seq<Block>, len: nat): (c: seq<Byte>)
    requires |nd.addrs| == NDIRECT + 1 && len <= MAXBYTES
    ensures |c| == len && forall p :: 0 <= p < len ==> c[p] == FileByte(nd, blk, p)
  {
    if len == 0 then [] else Bytes(nd, blk, len - 1) + [FileByte(nd, blk, len - 1)]
  }

  function Content(nd: Inode, blk: seq<Block>): (c: seq<Byte>)
    requires |nd.addrs| == NDIRECT + 1 && NoHoles(nd, blk)
    ensures |c| == nd.size
  {
    Bytes(nd, blk, nd.size)
  }

  // w with the bytes from off on replaced by piece, longer if piece reaches beyond the end.
  function Splice(w: seq<Byte>, off: nat, piece: seq<Byte>): (r: seq<Byte>)
    requires off <= |w|
    ensures |r| == if off + |piece| > |w| then off + |piece| else |w|
    ensures forall p :: 0 <= p < |r| ==> r[p] == if off <= p < off + |piece| then piece[p - off] else w[p]
  {
    w[..off] + piece + (if off + |piece| < |w| then w[off + |piece|..] else [])
  }

  lemma SpliceNone(w: seq<Byte>, off: nat, src: seq<Byte>)
    requires off <= |w|
    ensures Splice(w, off, src[..0]) == w
  {
  }

  lemma SpliceMore(w: seq<Byte>, off: nat, src: seq<Byte>, tot: nat, m: nat)
    requires off <= |w| && tot + m <= |src|
    ensures Splice(Splice(w, off, src[..tot]), off + tot, src[tot..tot + m]) == Splice(w, off, src[..tot + m])
  {
    assert src[..tot] + src[tot..tot + m] == src[..tot + m];
    SpliceThen(w, off, src[..tot], src[tot..tot + m]);
  }

  lemma SpliceThen(w: seq<Byte>, off: nat, a: seq<Byte>, b: seq<Byte>)
    requires off <= |w|
    ensures Splice(Splice(w, off, a), off + |a|, b) == Splice(w, off, a + b)
  {
  }

  // The mapped part of the file reads as want.
  ghost predicate Holds(nd: Inode, blk: seq<Block>, want: seq<Byte>) {
    && |nd.addrs| == NDIRECT + 1 && MappedTo(nd, blk, |want|)
    && forall p :: 0 <= p < |want| ==> FileByte(nd, blk, p) == want[p]
  }

  // Bytes o .. o + m - 1 of the file, all from one block.
  lemma ReadPiece(n: seq<Inode>, b: seq<Block>, i: nat, want: seq<Byte>, o: nat, m: nat)
    requires i < |n| && Holds(n[i], b, want) && o < |want|
    requires m <= BSIZE - o % BSIZE && o + m <= |want|
    ensures o / BSIZE < MAXFILE && 0 < RefAt(n, b, i, FileSlot(o / BSIZE)) < |b|
    ensures b[RefAt(n, b, i, FileSlot(o / BSIZE))][o % BSIZE..o % BSIZE + m] == want[o..o + m]
  {
    hide Ref;
    assert o / BSIZE * BSIZE <= o;
    var got := b[RefAt(n, b, i, FileSlot(o / BSIZE))][o % BSIZE..o % BSIZE + m];
    forall k | 0 <= k < m ensures got[k] == want[o..o + m][k] {
      assert (o + k) / BSIZE == o / BSIZE && (o + k) % BSIZE == o % BSIZE + k;
      assert FileByte(n[i], b, o + k) == want[o + k];
    }
  }

  // The range checks of writei, free of wrap-around.
  predicate Rejected(size: nat, off: nat, n: nat) {
    off > size || off + n > MAXBYTES
  }

  lemma HoldsContent(nd: Inode, blk: seq<Block>)
    requires |nd.addrs| == NDIRECT + 1
    ensures NoHoles(nd, blk) ==> Holds(nd, blk, Content(nd, blk))
    ensures forall w :: |w| == nd.size && Holds(nd, blk, w) ==> NoHoles(nd, blk) && Content(nd, blk) == w
  {
    hide FileByte, Ref;
    forall w | |w| == nd.size && Holds(nd, blk, w) ensures NoHoles(nd, blk) && Content(nd, blk) == w {
      assert Content(nd, blk) == w;
    }
  }

  // A filled slot of any inode keeps its block when inode i grows, and the block its data.
  lemma RefKept(sb: Super, n0: seq<Inode>, b0: seq<Block>, o0: map<nat, Slot>,
                n1: seq<Inode>, b1: seq<Block>, o1: map<nat, Slot>, i: nat, slots: set<nat>, j: nat, s: nat)
    requires Shape(sb, n0, b0) && Shape(sb, n1, b1) && i < |n0| && j < |n0| && s < SLOTS
    requires Consistent(sb, n0, b0, o0) && Consistent(sb, n1, b1, o1)
    requires Grown(sb, n0, b0, o0, n1, b1, o1, i, slots)
    requires RefAt(n0, b0, j, s) != 0
    ensures j < |n1| && RefAt(n1, b1, j, s) == RefAt(n0, b0, j, s)
    ensures s != NDIRECT ==> RefAt(n0, b0, j, s) < sb.size && b1[RefAt(n0, b0, j, s)] == b0[RefAt(n0, b0, j, s)]
  {
    hide RefAt, BitAt;
    var r := RefAt(n0, b0, j, s);
    RefInRange(sb, n0, b0, o0, j, s);
    assert OwnedOk(sb, n1, b1, o1[r], r);
  }

  // bmap changes the content of no file.
  lemma GrownHolds(sb: Super, n0: seq<Inode>, b0: seq<Block>, o0: map<nat, Slot>,
                   n1: seq<Inode>, b1: seq<Block>, o1: map<nat, Slot>, i: nat, slots: set<nat>, j: nat, want: seq<Byte>)
    requires Shape(sb, n0, b0) && Shape(sb, n1, b1) && i < |n0| && j < |n0|
    requires Consistent(sb, n0, b0, o0) && Consistent(sb, n1, b1, o1)
    requires Grown(sb, n0, b0, o0, n1, b1, o1, i, slots)
    requires Holds(n0[j], b0, want)
    ensures j < |n1| && Holds(n1[j], b1, want)
  {
    hide Consistent, Grown, Ref;
    assert |n1| == |n0| by { hide *; RefCount(sb, n0, b0, o0, n1, b1, o1, i, slots); }
    forall bn | 0 <= bn < MAXFILE && bn * BSIZE < |want|
      ensures Ref(n1[j], b1, FileSlot(bn)) == Ref(n0[j], b0, FileSlot(bn)) < sb.size
      ensures b1[Ref(n0[j], b0, FileSlot(bn))] == b0[Ref(n0[j], b0, FileSlot(bn))]
    {
      RefKept(sb, n0, b0, o0, n1, b1, o1, i, slots, j, FileSlot(bn));
    }
    forall p | 0 <= p < |want| ensures FileByte(n1[j], b1, p) == want[p] {
      assert p / BSIZE * BSIZE <= p && p / BSIZE < MAXFILE;
      assert FileByte(n0[j], b0, p) == want[p];
    }
  }

  lemma RefCount(sb: Super, n0: seq<Inode>, b0: seq<Block>, o0: map<nat, Slot>,
                 n1: seq<Inode>, b1: seq<Block>, o1: map<nat, Slot>, i: nat, slots: set<nat>)
    requires Shape(sb, n0, b0) && Shape(sb, n1, b1) && i < |n0|
    requires Grown(sb, n0, b0, o0, n1, b1, o1, i, slots)
    ensures |n1| == |n0|
  {
  }

  // Storing bytes into one data block of file i.
  lemma StoreHolds(sb: Super, n: seq<Inode>, b: seq<Block>, o: map<nat, Slot>, i: nat, bn: nat, d: nat,
                   piece: seq<Byte>, want: seq<Byte>)
    requires Shape(sb, n, b) && Consistent(sb, n, b, o) && i < |n| && bn < MAXFILE
    requires RefAt(n, b, i, FileSlot(bn)) != 0 && RefAt(n, b, i, FileSlot(bn)) < sb.size
    requires d < BSIZE && d + |piece| <= BSIZE && bn * BSIZE + d <= |want| && Holds(n[i], b, want)
    ensures var a := RefAt(n, b, i, FileSlot(bn)); var b' := b[a := Splice(b[a], d, piece)];
      && Consistent(sb, n, b', o) && SameRefs(n, b, n, b', {})
      && Holds(n[i], b', Splice(want, bn * BSIZE + d, piece))
  {
    var a := RefAt(n, b, i, FileSlot(bn));
    var b' := b[a := Splice(b[a], d, piece)];
    var w' := Splice(want, bn * BSIZE + d, piece);
    hide RefAt, Own, Ref;
    RefInRange(sb, n, b, o, i, FileSlot(bn));
    StoreKeeps(sb, n, b, o, {}, a, Splice(b[a], d, piece));
    assert forall s :: 0 <= s < SLOTS ==> RefAt(n, b', i, s) == RefAt(n, b, i, s);
    StoredBytes(sb, n, b, o, i, bn, d, piece, want);
  }

  lemma OneSlot(sb: Super, n: seq<Inode>, b: seq<Block>, o: map<nat, Slot>, i: nat, s: nat, j: nat, t: nat)
    requires Shape(sb, n, b) && Consistent(sb, n, b, o) && i < |n| && s < SLOTS && j < |n| && t < SLOTS
    requires RefAt(n, b, i, s) != 0 && (i, s) != (j, t)
    ensures RefAt(n, b, i, s) != RefAt(n, b, j, t)
  {
    hide BitAt, RefAt;
  }

  lemma StoredBytes(sb: Super, n: seq<Inode>, b: seq<Block>, o: map<nat, Slot>, i: nat, bn: nat, d: nat,
                    piece: seq<Byte>, want: seq<Byte>)
    requires Shape(sb, n, b) && Consistent(sb, n, b, o) && i < |n| && bn < MAXFILE
    requires RefAt(n, b, i, FileSlot(bn)) != 0 && RefAt(n, b, i, FileSlot(bn)) < sb.size
    requires d < BSIZE && d + |piece| <= BSIZE && bn * BSIZE + d <= |want| && Holds(n[i], b, want)
    requires var a := RefAt(n, b, i, FileSlot(bn)); var b' := b[a := Splice(b[a], d, piece)];
      forall s :: 0 <= s < SLOTS ==> RefAt(n, b', i, s) == RefAt(n, b, i, s)
    ensures var a := RefAt(n, b, i, FileSlot(bn)); var b' := b[a := Splice(b[a], d, piece)];
      Holds(n[i], b', Splice(want, bn * BSIZE + d, piece))
  {
    var a := RefAt(n, b, i, FileSlot(bn));
    var b' := b[a := Splice(b[a], d, piece)];
    var w' := Splice(want, bn * BSIZE + d, piece);
    hide Consistent, Ref;
    forall m | 0 <= m < MAXFILE && m * BSIZE < |w'| ensures 0 < Ref(n[i], b', FileSlot(m)) < |b'| {
      assert RefAt(n, b', i, FileSlot(m)) == RefAt(n, b, i, FileSlot(m));
      if m != bn { assert m * BSIZE < |want|; }
    }
    forall p | 0 <= p < |w'| ensures FileByte(n[i], b', p) == w'[p] {
      var m := p / BSIZE;
      assert p == m * BSIZE + p % BSIZE && m < MAXFILE;
      assert RefAt(n, b', i, FileSlot(m)) == RefAt(n, b, i, FileSlot(m));
      if m == bn {
        assert p < |want| ==> FileByte(n[i], b, p) == want[p];
      } else {
        assert FileByte(n[i], b, p) == want[p];
        OneSlot(sb, n, b, o, i, FileSlot(bn), i, FileSlot(m));
      }
    }
  }
}
