// Open files on inodes (file.c): a write goes out in chunks small enough for one log operation each.
module File {
  import opened Params
  import opened Blocks
  import opened Bits
  import opened FsState
  import opened FsGrow
  import opened FileBytes
  import opened FileFrame
  import Fs

  // What one chunk writes at most: half of the budget, less an inode, an indirect and two more blocks.
  const CHUNK: nat := (MAXOPBLOCKS - 1 - 1 - 2) / 2 * 512

  // ---- how many blocks a chunk logs ----

  function Range(lo: nat, hi: nat): (s: set<nat>)
    ensures forall x :: x in s <==> lo <= x < hi
    ensures |s| == if lo <= hi then hi - lo else 0
    decreases hi - lo
  {
    if hi <= lo then {} else Range(lo, hi - 1) + {hi - 1}
  }

  lemma {:induction false} SubsetSize(a: set<nat>, b: set<nat>)
    requires a <= b
    ensures |a| <= |b|
  {
    if a != {} {
      var x :| x in a;
      SubsetSize(a - {x}, b - {x});
    }
  }

  // At most as many blocks are owned by slots of i in `slots` as there are such slots.
  lemma {:induction false} OwnedCount(o: map<nat, Slot>, i: nat, bs: set<nat>, slots: set<nat>)
    requires forall b :: b in bs ==> b in o && o[b].0 == i && o[b].1 in slots
    requires forall b, c :: b in bs && c in bs && o[b] == o[c] ==> b == c
    ensures |bs| <= |slots|
  {
    if bs != {} {
      var b :| b in bs;
      OwnedCount(o, i, bs - {b}, slots - {o[b].1});
    }
  }

  lemma OwnInjective(sb: Super, n: seq<Inode>, b: seq<Block>, o: map<nat, Slot>)
    requires Consistent(sb, n, b, o)
    ensures forall c, d :: c in o && d in o && o[c] == o[d] ==> c == d
  {
    hide RefAt, BitAt;
    forall c, d | c in o && d in o && o[c] == o[d] ensures c == d {
      assert OwnedOk(sb, n, b, o[c], c) && OwnedOk(sb, n, b, o[d], d);
    }
  }

  function BitmapBlocks(sb: Super): nat { sb.size / BPB + 1 }

  function OwnedBlocks(o: map<nat, Slot>, l: set<nat>, i: nat, lo: nat, hi: nat): set<nat> {
    set c | c in l && c in o && o[c].0 == i && (o[c].1 == NDIRECT || lo <= BlockOf(o[c].1) < hi)
  }

  lemma LoggedSplit(sb: Super, o: map<nat, Slot>, l: set<nat>, i: nat, lo: nat, hi: nat)
    requires LoggedFor(sb, o, {}, l, i, lo, hi)
    ensures l <= Range(sb.bmapstart, sb.DataStart()) + {sb.IBlock(i)} + OwnedBlocks(o, l, i, lo, hi)
  {
    forall c | c in l ensures c in Range(sb.bmapstart, sb.DataStart()) + {sb.IBlock(i)} + OwnedBlocks(o, l, i, lo, hi) {
      assert Loggable(sb, o, i, lo, hi, c);
    }
  }

  lemma OwnedFew(sb: Super, o: map<nat, Slot>, l: set<nat>, i: nat, lo: nat, hi: nat)
    requires forall c, d :: c in o && d in o && o[c] == o[d] ==> c == d
    requires lo <= hi
    ensures |OwnedBlocks(o, l, i, lo, hi)| <= hi - lo + 1
  {
    var slots := SlotRange(lo, hi) + {NDIRECT};
    OwnedCount(o, i, OwnedBlocks(o, l, i, lo, hi), slots);
  }

  // A write to hi - lo file blocks logs those, the indirect block, the inode's block and free-map blocks.
  lemma LoggedCount(sb: Super, n: seq<Inode>, b: seq<Block>, o: map<nat, Slot>, l: set<nat>, i: nat, lo: nat, hi: nat)
    requires Shape(sb, n, b) && Consistent(sb, n, b, o) && lo <= hi
    requires LoggedFor(sb, o, {}, l, i, lo, hi)
    ensures |l| <= BitmapBlocks(sb) + 1 + 1 + (hi - lo)
  {
    hide Consistent, LoggedFor, OwnedBlocks;
    OwnInjective(sb, n, b, o);
    OwnedFew(sb, o, l, i, lo, hi);
    LoggedSplit(sb, o, l, i, lo, hi);
    var maps := Range(sb.bmapstart, sb.DataStart());
    SubsetSize(l, maps + {sb.IBlock(i)} + OwnedBlocks(o, l, i, lo, hi));
  }

  function SlotRange(lo: nat, hi: nat): (s: set<nat>)
    ensures forall x :: lo <= BlockOf(x) < hi && x != NDIRECT ==> x in s
    ensures |s| <= if lo <= hi then hi - lo else 0
    decreases hi - lo
  {
    if hi <= lo then {} else
      var s := SlotRange(lo, hi - 1) + {FileSlot(hi - 1)};
      assert forall x :: BlockOf(x) == hi - 1 && x != NDIRECT ==> x == FileSlot(hi - 1);
      s
  }

  // Each chunk fits in the room one operation may use, if the free map has at most 4 blocks.
  lemma ChunkFits(sb: Super, n: seq<Inode>, b: seq<Block>, o: map<nat, Slot>, l: set<nat>, i: nat, off: nat, m: nat)
    requires Shape(sb, n, b) && Consistent(sb, n, b, o) && m <= CHUNK
    requires LoggedFor(sb, o, {}, l, i, off / BSIZE, (off + m + BSIZE - 1) / BSIZE)
    ensures |l| <= BitmapBlocks(sb) + 6
    ensures BitmapBlocks(sb) <= 4 ==> |l| <= MAXOPBLOCKS
  {
    assert (off + m + BSIZE - 1) / BSIZE - off / BSIZE <= 4;
    LoggedCount(sb, n, b, o, l, i, off / BSIZE, (off + m + BSIZE - 1) / BSIZE);
  }

  // ---- open files ----

  datatype Kind = FD_NONE | FD_PIPE | FD_INODE

  // How many of n bytes at off filewrite gets written: all, or the chunks that fit below MAXBYTES.
  function Written(size: nat, off: nat, n: int): (k: nat)
    ensures n >= 0 ==> k <= n
    ensures off <= size <= MAXBYTES && n >= 0 ==> off + k <= MAXBYTES && (k == n <==> off + n <= MAXBYTES)
  {
    if n <= 0 || off > size || size > MAXBYTES then 0
    else if off + n <= MAXBYTES then n
    else (MAXBYTES - off) / CHUNK * CHUNK
  }

  // If not all of it fits, the whole chunks that fit are written; beyond the end of the file nothing is.
  lemma WrittenChunks(size: nat, off: nat, n: int)
    requires off + n > MAXBYTES >= size
    ensures var k := Written(size, off, n);
      if off > size then k == 0 else k % 1536 == 0 && off + k <= MAXBYTES < off + k + 1536
  {
    if off <= size { WholeChunks(MAXBYTES - off); }
  }

  lemma WholeChunks(x: nat)
    ensures (x / 1536 * 1536) % 1536 == 0 && x / 1536 * 1536 <= x < x / 1536 * 1536 + 1536
  {
  }

  // Reading back what was spliced in.
  lemma SpliceRead(w: seq<Byte>, off: nat, src: seq<Byte>)
    requires off <= |w|
    ensures Splice(w, off, src)[off..off + |src|] == src
    ensures Splice(w, off, src)[..off] == w[..off]
    ensures off + |src| <= |w| ==> Splice(w, off, src)[off + |src|..] == w[off + |src|..]
  {
  }

  // The file after filewrite got k bytes written at off.
  function AfterWrite(w: seq<Byte>, off: nat, src: seq<Byte>, k: nat): seq<Byte>
    requires k <= |src| && (k > 0 ==> off <= |w|)
  {
    if k == 0 then w else Splice(w, off, src[..k])
  }

  lemma AfterMore(w: seq<Byte>, off: nat, src: seq<Byte>, k: nat, m: nat)
    requires off <= |w| && k + m <= |src| && 0 < m
    ensures off + k <= |AfterWrite(w, off, src, k)|
    ensures Splice(AfterWrite(w, off, src, k), off + k, src[k..k + m]) == AfterWrite(w, off, src, k + m)
  {
    if k == 0 {
      assert src[0..m] == src[..m];
    } else {
      SpliceMore(w, off, src, k, m);
    }
  }

  lemma SizeMax(nd: Inode, b: seq<Block>)
    requires |nd.addrs| == NDIRECT + 1 && NoHoles(nd, b)
    ensures nd.size <= MAXBYTES && |Content(nd, b)| == nd.size
  {
  }

  lemma AfterNone(w: seq<Byte>, off: nat, src: seq<Byte>)
    ensures AfterWrite(w, off, src, 0) == w
  {
  }

  lemma AfterSize(w: seq<Byte>, off: nat, src: seq<Byte>, k: nat)
    requires k <= |src| && (k > 0 ==> off <= |w|)
    ensures |AfterWrite(w, off, src, k)| == if k > 0 && off + k > |w| then off + k else |w|
  {
  }

  // writei refused the chunk at i.
  lemma Stopped(w: seq<Byte>, off: nat, src: seq<Byte>, n: int, q: nat, m: nat)
    requires |w| <= MAXBYTES && n <= |src| && CHUNK * q < n && (q > 0 ==> off <= |w| && off + CHUNK * q <= MAXBYTES)
    requires m == (if n - CHUNK * q > CHUNK then CHUNK else n - CHUNK * q)
    requires Rejected(|AfterWrite(w, off, src, CHUNK * q)|, off + CHUNK * q, m)
    ensures CHUNK * q == Written(|w|, off, n) && CHUNK * q != n
  {
    AfterSize(w, off, src, CHUNK * q);
    if off <= |w| {
      StopsAt(|w|, off, n, q, m);
    }
  }

  // Every chunk was written, or there was none.
  lemma Finished(w: seq<Byte>, off: nat, src: seq<Byte>, n: int, i: nat)
    requires |w| <= MAXBYTES && n <= i && (i <= n || i == 0) && (i > 0 ==> off <= |w| && off + i <= MAXBYTES)
    ensures i == Written(|w|, off, n)
  {
  }

  lemma SyncedTrans(sb: Super, n0: seq<Inode>, b0: seq<Block>, n1: seq<Inode>, b1: seq<Block>, n2: seq<Inode>, b2: seq<Block>)
    requires Shape(sb, n0, b0) && Shape(sb, n1, b1) && Shape(sb, n2, b2)
    requires KeepsSynced(sb, n0, b0, n1, b1) && KeepsSynced(sb, n1, b1, n2, b2)
    ensures KeepsSynced(sb, n0, b0, n2, b2)
  {
    hide DiskInode;
  }

  lemma SyncedRefl(sb: Super, n: seq<Inode>, b: seq<Block>)
    requires Shape(sb, n, b)
    ensures KeepsSynced(sb, n, b, n, b)
  {
  }

  lemma QuotientIs(x: nat, q: nat)
    requires 1536 * q <= x < 1536 * q + 1536
    ensures x / 1536 * 1536 == 1536 * q
  {
  }

  // The chunk loop stops where Written says.
  lemma StopsAt(size: nat, off: nat, n: int, q: nat, m: nat)
    requires off <= size <= MAXBYTES && CHUNK * q < n && off + CHUNK * q <= MAXBYTES
    requires m == (if n - CHUNK * q > CHUNK then CHUNK else n - CHUNK * q) && off + CHUNK * q + m > MAXBYTES
    ensures CHUNK * q == Written(size, off, n)
  {
    assert CHUNK == 1536;
    QuotientIs(MAXBYTES - off, q);
  }

  class OpenFile {
    var kind: Kind
    var readable: bool
    var writable: bool
    var ip: nat
    var off: Word
    const fs: Fs.Fs

    constructor (k: Kind, r: bool, w: bool, inum: nat, system: Fs.Fs)
      ensures kind == k && readable == r && writable == w && ip == inum && off == 0 && fs == system
    {
      kind, readable, writable, ip, off, fs := k, r, w, inum, 0, system;
    }

    // The inode of an open regular file.
    ghost predicate Regular()
      reads this, fs
    {
      && fs.Valid() && ip < |fs.nodes| && fs.nodes[ip].typ != T_DEV
      && NoHoles(fs.nodes[ip], fs.blk)
    }

    // The bytes of the file.
    ghost function Text(): (c: seq<Byte>)
      requires Regular()
      reads this, fs
    {
      Content(fs.nodes[ip], fs.blk)
    }

    ghost function View(): Op
      reads fs
    {
      Op(fs.nodes, fs.blk, {})
    }

    ghost predicate Now(v: Op)
      reads fs
    {
      fs.nodes == v.nodes && fs.blk == v.blk
    }

    // One chunk of filewrite: an operation of its own that writes it and moves the file offset.
    method WriteChunk(src: seq<Byte>) returns (r: Result<int>)
      requires Regular() && 0 < |src| <= CHUNK
      modifies this`off, fs
      ensures fs.Valid() && |fs.nodes| == |old(fs.nodes)|
      ensures r.Panic? ==> Full(fs.sb, fs.blk) && off + |src| > old(fs.nodes)[ip].size
      ensures r.Ok? ==> Regular() && |fs.logged| <= BitmapBlocks(fs.sb) + 6
      ensures r.Ok? && Rejected(old(fs.nodes)[ip].size, old(off), |src|) ==>
                r.value == -1 && fs.blk == old(fs.blk) && fs.nodes == old(fs.nodes) && off == old(off)
      ensures r.Ok? && !Rejected(old(fs.nodes)[ip].size, old(off), |src|) ==>
                && r.value == |src| && off == old(off) + |src|
                && Text() == Splice(old(Text()), old(off), src)
      ensures r.Ok? ==> OthersSame(old(fs.nodes), old(fs.blk), fs.nodes, fs.blk, ip)
      ensures r.Ok? ==> KeepsSynced(fs.sb, old(fs.nodes), old(fs.blk), fs.nodes, fs.blk)
      ensures r.Ok? ==> OpStep(fs.sb, old(fs.nodes), old(fs.blk), fs.nodes, fs.blk, fs.logged)
    {
      hide Own, MappedTo, Content, OthersSame, KeepsSynced, LoggedFor, Full, Splice, OpStep;
      fs.BeginOp();
      r := fs.Writei(ip, src, off, |src|);
      if r.Panic? {
        return;
      }
      assert src[..|src|] == src;
      if r.value > 0 {
        ChunkFits(fs.sb, fs.nodes, fs.blk, fs.own, fs.logged, ip, off, |src|);
        off := off + r.value;
      } else {
        OthersRefl(fs.sb, fs.nodes, fs.blk, ip);
        SyncedRefl(fs.sb, fs.nodes, fs.blk);
      }
    }

    // The chunk loop of filewrite.
    method WriteChunks(addr: seq<Byte>, n: int) returns (r: Result<int>, ghost ops: seq<Op>)
      requires Regular() && n <= |addr|
      modifies this`off, fs
      ensures r.Panic? ==> fs.Valid() && Full(fs.sb, fs.blk)
      ensures r.Ok? ==>
                var k := Written(|old(Text())|, old(off), n);
                && Regular() && k <= |addr| && (k > 0 ==> old(off) <= |old(Text())|)
                && r.value == (if k == n then n else -1) && off == old(off) + k
                && Text() == AfterWrite(old(Text()), old(off), addr, k)
                && OthersSame(old(fs.nodes), old(fs.blk), fs.nodes, fs.blk, ip)
                && KeepsSynced(fs.sb, old(fs.nodes), old(fs.blk), fs.nodes, fs.blk)
      ensures forall k :: 0 <= k < |ops| ==> |ops[k].logged| <= BitmapBlocks(fs.sb) + 6
      ensures OpsRun(fs.sb, old(View()), ops) && (r.Ok? ==> Now(AfterOps(old(View()), ops)))
    {
      hide Own, MappedTo, Content, OthersSame, KeepsSynced, Full, AfterWrite, Written, BitmapBlocks, OpsRun, OpStep;
      ghost var w, off0 := Text(), off;
      ghost var n0, b0 := fs.nodes, fs.blk;
      OthersRefl(fs.sb, n0, b0, ip);
      SyncedRefl(fs.sb, n0, b0);
      AfterNone(w, off, addr);
      SizeMax(fs.nodes[ip], fs.blk);
      ops := [];
      NoOps(fs.sb, View());
      var i := 0;
      ghost var q := 0;
      while i < n
        invariant 0 <= i && (i <= n || i == 0) && (i == n || i == CHUNK * q) && off == off0 + i
        invariant Regular() && ip < |n0|
        invariant i > 0 ==> off0 <= |w| && off0 + i <= MAXBYTES
        invariant Text() == AfterWrite(w, off0, addr, i)
        invariant OthersSame(n0, b0, fs.nodes, fs.blk, ip) && KeepsSynced(fs.sb, n0, b0, fs.nodes, fs.blk)
        invariant forall k :: 0 <= k < |ops| ==> |ops[k].logged| <= BitmapBlocks(fs.sb) + 6
        invariant OpsRun(fs.sb, old(View()), ops) && Now(AfterOps(old(View()), ops))
      {
        var n1 := if n - i > CHUNK then CHUNK else n - i;
        assert |Text()| == fs.nodes[ip].size;
        ghost var n2, b2 := fs.nodes, fs.blk;
        var c := WriteChunk(addr[i..i + n1]);
        if c.Panic? {
          return c, ops;
        }
        OneMoreOp(fs.sb, old(View()), ops, Op(fs.nodes, fs.blk, fs.logged));
        ops := ops + [Op(fs.nodes, fs.blk, fs.logged)];
        OthersTrans(n0, b0, n2, b2, fs.nodes, fs.blk, ip);
        SyncedTrans(fs.sb, n0, b0, n2, b2, fs.nodes, fs.blk);
        if c.value < 0 {
          Stopped(w, off0, addr, n, q, n1);
          return Ok(-1), ops;
        }
        assert c.value == n1;   // so "short filewrite" cannot happen
        AfterMore(w, off0, addr, i, n1);
        i := i + c.value;
        q := q + 1;
      }
      Finished(w, off0, addr, n, i);
      r := Ok(if i == n then n else -1);
    }

    // Read from file f.  Pipes have their own module.
    method Fileread(n: int) returns (r: Result<int>, dst: seq<Byte>)
      requires kind != FD_PIPE && (kind == FD_INODE ==> Regular()) && -0x1_0000_0000 < n < 0x1_0000_0000
      modifies this`off, fs
      ensures fs.blk == old(fs.blk) && fs.nodes == old(fs.nodes) && fs.own == old(fs.own) && fs.logged == old(fs.logged)
      ensures !readable ==> r == Ok(-1) && dst == [] && off == old(off)
      ensures readable && kind == FD_NONE ==> r == Panic("fileread") && off == old(off)
      ensures readable && kind == FD_INODE && n >= 0 && (old(off) > fs.nodes[ip].size || old(off) + n >= TWO32) ==>
                r == Ok(-1) && dst == [] && off == old(off)
      ensures readable && kind == FD_INODE && n >= 0 && old(off) <= fs.nodes[ip].size && old(off) + n < TWO32 ==>
                && r == Ok(|dst|) && off == old(off) + |dst|
                && |dst| == (if old(off) + n > |Text()| then |Text()| - old(off) else n)
                && dst == Text()[old(off)..off]
    {
      hide Own, MappedTo, Content;
      dst := [];
      if !readable {
        return Ok(-1), [];
      }
      if kind == FD_INODE {
        r, dst := fs.Readi(ip, off, n % TWO32);
        if r.Ok? && r.value > 0 {
          off := off + r.value;
        }
        return;
      }
      r := Panic("fileread");
    }

    // Write to file f; ops collects what each operation logged.
    method Filewrite(addr: seq<Byte>, n: int) returns (r: Result<int>, ghost ops: seq<Op>)
      requires kind != FD_PIPE && (kind == FD_INODE ==> Regular()) && n <= |addr|
      modifies this`off, fs
      ensures !writable || kind == FD_NONE ==>
                && r == (if writable then Panic("filewrite") else Ok(-1))
                && fs.blk == old(fs.blk) && fs.nodes == old(fs.nodes) && off == old(off)
      ensures writable && kind == FD_INODE && r.Panic? ==> fs.Valid() && Full(fs.sb, fs.blk)
      ensures writable && kind == FD_INODE && r.Ok? ==>
                var k := Written(|old(Text())|, old(off), n);
                && Regular() && k <= |addr| && (k > 0 ==> old(off) <= |old(Text())|)
                && r.value == (if k == n then n else -1) && off == old(off) + k
                && Text() == AfterWrite(old(Text()), old(off), addr, k)
                && OthersSame(old(fs.nodes), old(fs.blk), fs.nodes, fs.blk, ip)
                && KeepsSynced(fs.sb, old(fs.nodes), old(fs.blk), fs.nodes, fs.blk)
      ensures forall k :: 0 <= k < |ops| ==> |ops[k].logged| <= BitmapBlocks(fs.sb) + 6
      ensures OpsRun(fs.sb, old(View()), ops) && (r.Ok? ==> Now(AfterOps(old(View()), ops)))
    {
      hide Own, MappedTo, Content, OthersSame, KeepsSynced, Full, AfterWrite, Written, OpsRun;
      ops := [];
      NoOps(fs.sb, View());
      if !writable {
        return Ok(-1), [];
      }
      if kind == FD_INODE {
        r, ops := WriteChunks(addr, n);
        return;
      }
      r := Panic("filewrite");
    }
  }
}
