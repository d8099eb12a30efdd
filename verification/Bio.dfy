// The buffer cache (bio.c) over the in-memory disk (memide.c).
module Bio {
  import opened Params
  import opened Blocks
  import opened BufRing
  import opened LogRecovery

  datatype Buf = Buf(dev: nat, blockno: nat, valid: bool, dirty: bool, locked: bool, refcnt: nat, data: Block)

  // memide.c: the disk.  `writes` records every block write ever made, in order.
  class Ide {
    var disk: Disk
    ghost var writes: seq<Write>

    constructor (d: Disk)
      ensures disk == d && writes == []
    {
      disk := d;
      writes := [];
    }
  }

  // ---- what the cache says about the disk ----

  predicate Caches(s: seq<Buf>, i: nat, dev: nat, b: nat) {
    i < |s| && s[i].dev == dev && s[i].blockno == b
  }

  // A buffer that bget may recycle: nobody uses it and the log does not pin it.
  predicate Usable(x: Buf) { x.refcnt == 0 && !x.dirty }

  // Buffer i holds the contents of block b.
  predicate Holds(s: seq<Buf>, i: nat, b: nat) {
    Caches(s, i, ROOTDEV, b) && s[i].valid
  }

  ghost predicate Unique(s: seq<Buf>) {
    forall i: nat, j: nat, dev: nat, b: nat ::
      dev != 0 && Caches(s, i, dev, b) && Caches(s, j, dev, b) ==> i == j
  }

  // What holds of one buffer between calls: a buffer read from the disk, and neither pinned nor in
  // the hands of a process, equals its disk block.
  predicate BufOk(x: Buf, d: Disk) {
    && (x.valid ==> x.dev == ROOTDEV && x.blockno < |d|)
    && (x.dirty ==> x.valid)
    && (x.locked ==> x.refcnt > 0)
    && (x.valid && !x.dirty && !x.locked ==> x.data == d[x.blockno])
  }

  ghost predicate Coherent(s: seq<Buf>, d: Disk) {
    Unique(s) && forall i :: 0 <= i < |s| ==> BufOk(s[i], d)
  }

  // The contents of block b as every reader of the cache sees them.
  ghost function Content(s: seq<Buf>, d: Disk, b: nat): Block
    requires b < |d|
  {
    if exists i: nat :: Holds(s, i, b) then
      var i: nat :| Holds(s, i, b);
      s[i].data
    else d[b]
  }

  lemma ContentHeld(s: seq<Buf>, d: Disk, i: nat, b: nat)
    requires Unique(s) && Holds(s, i, b) && b < |d|
    ensures Content(s, d, b) == s[i].data
  {
    assert exists k: nat :: Holds(s, k, b);
    assert Caches(s, i, ROOTDEV, b);
    forall k: nat | Holds(s, k, b) ensures k == i {
      assert Caches(s, k, ROOTDEV, b);
    }
  }

  lemma ContentNotHeld(s: seq<Buf>, d: Disk, b: nat)
    requires b < |d| && forall i: nat :: !Holds(s, i, b)
    ensures Content(s, d, b) == d[b]
  {
  }

  ghost predicate SameContent(s: seq<Buf>, d: Disk, s': seq<Buf>, d': Disk) {
    |d'| == |d| && forall b: nat :: b < |d| ==> Content(s', d', b) == Content(s, d, b)
  }

  lemma UniqueUpdate(s: seq<Buf>, i: nat, x: Buf)
    requires Unique(s) && i < |s|
    requires (x.dev, x.blockno) == (s[i].dev, s[i].blockno) || forall k: nat :: !Caches(s, k, x.dev, x.blockno)
    ensures Unique(s[i := x])
  {
    var s' := s[i := x];
    forall k: nat, j: nat, dev: nat, b: nat | dev != 0 && Caches(s', k, dev, b) && Caches(s', j, dev, b)
      ensures k == j
    {
      if k != i && j != i {
        assert Caches(s, k, dev, b) && Caches(s, j, dev, b);
      } else if k != j {
        var o := if k == i then j else k;
        assert Caches(s, o, dev, b) && dev == x.dev && b == x.blockno;
        assert Caches(s, i, s[i].dev, s[i].blockno);
      }
    }
  }

  lemma UpdateCoherent(s: seq<Buf>, d: Disk, i: nat, x: Buf)
    requires Coherent(s, d) && i < |s| && BufOk(x, d)
    requires (x.dev, x.blockno) == (s[i].dev, s[i].blockno) || forall k: nat :: !Caches(s, k, x.dev, x.blockno)
    ensures Coherent(s[i := x], d)
  {
    UniqueUpdate(s, i, x);
  }

  // A buffer that changes without changing what it says about a block: it keeps the data of a
  // held block, or starts or stops holding a block whose data is on the disk.
  lemma UpdateContent(s: seq<Buf>, d: Disk, i: nat, x: Buf)
    requires i < |s| && Unique(s) && Unique(s[i := x])
    requires forall b: nat :: b < |d| && Holds(s, i, b) ==>
               if Holds(s[i := x], i, b) then x.data == s[i].data else s[i].data == d[b]
    requires forall b: nat :: b < |d| && Holds(s[i := x], i, b) && !Holds(s, i, b) ==>
               x.data == d[b] && forall k: nat :: !Holds(s, k, b)
    ensures SameContent(s, d, s[i := x], d)
  {
    var s' := s[i := x];
    forall b: nat | b < |d| ensures Content(s', d, b) == Content(s, d, b) {
      assert forall k: nat :: k != i ==> Holds(s', k, b) == Holds(s, k, b);
      if k: nat :| Holds(s', k, b) {
        ContentHeld(s', d, k, b);
        if k != i || Holds(s, i, b) {
          ContentHeld(s, d, k, b);
        } else {
          ContentNotHeld(s, d, b);
        }
      } else {
        ContentNotHeld(s', d, b);
        if Holds(s, i, b) {
          ContentHeld(s, d, i, b);
        } else {
          ContentNotHeld(s, d, b);
        }
      }
    }
  }

  // The holder of a buffer changes its data: only that block's contents change.
  lemma StoreContent(s: seq<Buf>, d: Disk, i: nat, x: Buf, b0: nat)
    requires i < |s| && Unique(s) && Unique(s[i := x]) && Holds(s, i, b0) && Holds(s[i := x], i, b0)
    ensures forall b: nat :: b < |d| ==>
              Content(s[i := x], d, b) == if b == b0 then x.data else Content(s, d, b)
  {
    var s' := s[i := x];
    forall b: nat | b < |d| ensures Content(s', d, b) == if b == b0 then x.data else Content(s, d, b) {
      assert forall k: nat :: Holds(s', k, b) == Holds(s, k, b);
      if k: nat :| Holds(s, k, b) {
        ContentHeld(s, d, k, b);
        ContentHeld(s', d, k, b);
        assert Caches(s, k, ROOTDEV, b) && Caches(s, i, ROOTDEV, b0);
      } else {
        ContentNotHeld(s, d, b);
        ContentNotHeld(s', d, b);
      }
    }
  }

  // A buffer's data goes to its disk block.
  lemma FlushKeeps(s: seq<Buf>, d: Disk, i: nat)
    requires Coherent(s, d) && i < |s| && s[i].dev == ROOTDEV && s[i].blockno < |d| && s[i].valid
    ensures var x := s[i].(dirty := false);
      var d' := d[s[i].blockno := s[i].data];
      Coherent(s[i := x], d') && SameContent(s, d, s[i := x], d')
  {
    var x := s[i].(dirty := false);
    var s', d' := s[i := x], d[s[i].blockno := s[i].data];
    UniqueUpdate(s, i, x);
    forall k | 0 <= k < |s'| ensures BufOk(s'[k], d') {
      if k != i && s[k].valid && s[k].blockno == s[i].blockno {
        assert Caches(s, k, ROOTDEV, s[i].blockno) && Caches(s, i, ROOTDEV, s[i].blockno);
      }
    }
    forall b: nat | b < |d| ensures Content(s', d', b) == Content(s, d, b) {
      assert forall k: nat :: Holds(s', k, b) == Holds(s, k, b);
      if k: nat :| Holds(s, k, b) {
        ContentHeld(s, d, k, b);
        ContentHeld(s', d', k, b);
      } else {
        assert !Holds(s, i, b);
        ContentNotHeld(s, d, b);
        ContentNotHeld(s', d', b);
      }
    }
  }

  class BCache {
    const ide: Ide
    const buf: array<Buf>
    const ring: Ring

    ghost predicate Shape()
      reads this, ring, ring.prev, ring.next
    {
      ring.Valid() && ring.head == NBUF && buf.Length == NBUF
    }

    ghost predicate Valid()
      reads this, ide, buf, ring, ring.prev, ring.next
    {
      Shape() && Coherent(buf[..], ide.disk)
    }

    // binit at boot: empty buffers, all of them (dev 0, block 0).
    constructor (disk: Ide)
      ensures Valid() && fresh(buf) && fresh(ring) && fresh(ring.prev) && fresh(ring.next) && ide == disk
      ensures forall i :: 0 <= i < NBUF ==> buf[i].dev == 0 && Usable(buf[i]) && !buf[i].valid
      ensures forall b: nat :: b < |ide.disk| ==> Content(buf[..], ide.disk, b) == ide.disk[b]
    {
      ide := disk;
      buf := new Buf[NBUF](_ => Buf(0, 0, false, false, false, 0, ZeroBlock()));
      ring := new Ring(NBUF);
    }

    // iderw: sync one buffer with the disk.
    method Iderw(i: nat) returns (r: Result<()>)
      requires i < buf.Length
      modifies ide, buf
      ensures r.Panic? <==> (!old(buf[i]).locked || (old(buf[i]).valid && !old(buf[i]).dirty)
                             || old(buf[i]).dev != ROOTDEV || old(buf[i]).blockno >= |old(ide.disk)|)
      ensures r.Panic? || !old(buf[i]).dirty ==> ide.disk == old(ide.disk) && ide.writes == old(ide.writes)
      ensures r.Panic? ==> buf[..] == old(buf[..])
      ensures r.Ok? && old(buf[i]).dirty ==>
                && buf[i].blockno < |old(ide.disk)|
                && ide.disk == old(ide.disk)[buf[i].blockno := old(buf[i]).data]
                && ide.writes == old(ide.writes) + [Write(buf[i].blockno, old(buf[i]).data)]
                && buf[..] == old(buf[..])[i := old(buf[i]).(dirty := false, valid := true)]
      ensures r.Ok? && !old(buf[i]).dirty ==>
                && buf[i].blockno < |ide.disk|
                && buf[..] == old(buf[..])[i := old(buf[i]).(data := ide.disk[buf[i].blockno], valid := true)]
    {
      var b := buf[i];
      if !b.locked {
        return Panic("iderw: buf not locked");
      }
      if b.valid && !b.dirty {
        return Panic("iderw: nothing to do");
      }
      if b.dev != ROOTDEV {
        return Panic("iderw: request not for disk 1");
      }
      if b.blockno >= |ide.disk| {
        return Panic("iderw: block out of range");
      }
      if b.dirty {
        b := b.(dirty := false);
        ide.disk := ide.disk[b.blockno := b.data];
        ide.writes := ide.writes + [Write(b.blockno, b.data)];
      } else {
        b := b.(data := ide.disk[b.blockno]);
      }
      buf[i] := b.(valid := true);
      return Ok(());
    }

    // First loop of bget: the buffer caching (dev, blockno), if there is one.
    method FindCached(dev: nat, blockno: nat) returns (r: Option<nat>)
      requires Shape()
      ensures r.Some? ==> r.value < NBUF && Caches(buf[..], r.value, dev, blockno)
      ensures r.None? ==> forall i: nat :: !Caches(buf[..], i, dev, blockno)
    {
      assert At(ring.order, NBUF, 0) == NBUF;
      var b := ring.next[NBUF];
      ghost var j := 1;
      while b != NBUF
        invariant 1 <= j <= NBUF + 1 && b == At(ring.order, NBUF, j)
        invariant forall k :: 0 <= k < j - 1 ==> !Caches(buf[..], ring.order[k], dev, blockno)
        decreases NBUF + 1 - j
      {
        if buf[b].dev == dev && buf[b].blockno == blockno {
          return Some(b);
        }
        b := ring.next[b];
        j := j + 1;
      }
      forall i: nat ensures !Caches(buf[..], i, dev, blockno) {
        if i < NBUF {
          assert i in ring.order;
        }
      }
      return None;
    }

    // Second loop of bget: the least recently used buffer that may be recycled.
    method FindUsable() returns (r: Option<nat>, ghost k: nat)
      requires Shape()
      ensures r.Some? ==> r.value < NBUF && k < NBUF && ring.order[k] == r.value && Usable(buf[r.value])
      ensures r.Some? ==> forall j :: k < j < NBUF ==> !Usable(buf[ring.order[j]])
      ensures r.None? ==> forall i :: 0 <= i < NBUF ==> !Usable(buf[i])
    {
      assert At(ring.order, NBUF, NBUF + 1) == NBUF;
      var b := ring.prev[NBUF];
      k := NBUF;
      while b != NBUF
        invariant 0 <= k <= NBUF && b == At(ring.order, NBUF, k)
        invariant forall j :: k <= j < NBUF ==> !Usable(buf[ring.order[j]])
        decreases k
      {
        if buf[b].refcnt == 0 && !buf[b].dirty {
          k := k - 1;
          return Some(b), k;
        }
        b := ring.prev[b];
        k := k - 1;
      }
      forall i | 0 <= i < NBUF ensures !Usable(buf[i]) {
        assert i in ring.order;
      }
      return None, 0;
    }

    // bget up to the point where it sleeps on the buffer's lock.
    method Bget(dev: nat, blockno: nat) returns (r: Result<nat>, ghost hit: bool)
      requires Valid()
      modifies buf
      ensures hit <==> exists i: nat :: Caches(old(buf[..]), i, dev, blockno)
      ensures r.Panic? <==> !hit && forall i :: 0 <= i < NBUF ==> !Usable(old(buf[i]))
      ensures r.Ok? ==> r.value < NBUF && Valid() && SameContent(old(buf[..]), ide.disk, buf[..], ide.disk)
      ensures r.Ok? && hit ==>
                && Caches(old(buf[..]), r.value, dev, blockno)
                && buf[..] == old(buf[..])[r.value := old(buf[r.value]).(refcnt := old(buf[r.value]).refcnt + 1)]
      ensures r.Ok? && !hit ==>
                && Usable(old(buf[r.value]))
                && buf[..] == old(buf[..])[r.value := Buf(dev, blockno, false, false, false, 1, old(buf[r.value]).data)]
                && exists k: nat :: k < NBUF && ring.order[k] == r.value
                     && forall j :: k < j < NBUF ==> !Usable(old(buf[ring.order[j]]))
    {
      ghost var s := buf[..];
      hit := false;
      var c := FindCached(dev, blockno);
      assert buf[..] == s;
      if c.Some? {
        hit := true;
        var x := buf[c.value];
        x := x.(refcnt := x.refcnt + 1);
        UpdateCoherent(s, ide.disk, c.value, x);
        UpdateContent(s, ide.disk, c.value, x);
        buf[c.value] := x;
        assert buf[..] == s[c.value := x];
        return Ok(c.value), hit;
      }
      assert forall k: nat :: !Caches(s, k, dev, blockno);
      r := Recycle(dev, blockno);
    }

    // bget's second loop: no buffer has the block, and the least recently used one is taken for it.
    method Recycle(dev: nat, blockno: nat) returns (r: Result<nat>)
      requires Valid() && forall i: nat :: !Caches(buf[..], i, dev, blockno)
      modifies buf
      ensures r.Panic? <==> forall i :: 0 <= i < NBUF ==> !Usable(old(buf[i]))
      ensures r.Ok? ==>
                && r.value < NBUF && Valid() && SameContent(old(buf[..]), ide.disk, buf[..], ide.disk)
                && Usable(old(buf[r.value]))
                && buf[..] == old(buf[..])[r.value := Buf(dev, blockno, false, false, false, 1, old(buf[r.value]).data)]
                && exists k: nat :: k < NBUF && ring.order[k] == r.value
                     && forall j :: k < j < NBUF ==> !Usable(old(buf[ring.order[j]]))
    {
      ghost var s := buf[..];
      var c;
      ghost var k;
      c, k := FindUsable();
      assert buf[..] == s;
      if c.None? {
        return Panic("bget: no buffers");
      }
      var x := Buf(dev, blockno, false, false, false, 1, buf[c.value].data);
      assert BufOk(s[c.value], ide.disk) && Usable(s[c.value]);
      assert forall i: nat :: !Caches(s, i, x.dev, x.blockno);
      UpdateCoherent(s, ide.disk, c.value, x);
      UpdateContent(s, ide.disk, c.value, x);
      buf[c.value] := x;
      assert buf[..] == s[c.value := x];
      r := Ok(c.value);
    }

    // acquiresleep on a buffer that nobody has locked; otherwise the caller sleeps.
    method Lock(i: nat)
      requires Valid() && i < NBUF && buf[i].refcnt > 0 && !buf[i].locked
      modifies buf
      ensures Valid() && SameContent(old(buf[..]), ide.disk, buf[..], ide.disk)
      ensures buf[..] == old(buf[..])[i := old(buf[i]).(locked := true)]
    {
      ghost var s := buf[..];
      var x := buf[i];
      x := x.(locked := true);
      UpdateCoherent(s, ide.disk, i, x);
      UpdateContent(s, ide.disk, i, x);
      buf[i] := x;
      assert buf[..] == s[i := x];
    }

    // Reading a locked buffer's block in, when it is not valid yet.
    method Fill(i: nat) returns (r: Result<()>)
      requires Valid() && i < NBUF && buf[i].locked && !buf[i].valid
      requires forall k: nat :: Caches(buf[..], k, buf[i].dev, buf[i].blockno) ==> k == i
      modifies ide, buf
      ensures ide.disk == old(ide.disk) && ide.writes == old(ide.writes)
      ensures r.Panic? <==> old(buf[i]).dev != ROOTDEV || old(buf[i]).blockno >= |ide.disk|
      ensures r.Ok? ==>
                && Valid() && SameContent(old(buf[..]), ide.disk, buf[..], ide.disk)
                && buf[..] == old(buf[..])[i := old(buf[i]).(data := ide.disk[old(buf[i]).blockno], valid := true)]
    {
      ghost var s := buf[..];
      assert BufOk(s[i], ide.disk);
      r := Iderw(i);
      if r.Ok? {
        ghost var x := buf[i];
        assert buf[..] == s[i := x];
        UpdateCoherent(s, ide.disk, i, x);
        forall k: nat | Holds(s, k, x.blockno) ensures k == i {
          assert Caches(s, k, s[i].dev, s[i].blockno);
        }
        UpdateContent(s, ide.disk, i, x);
      }
    }

    // bread, when nobody else has the buffer locked.
    method Bread(dev: nat, blockno: nat) returns (r: Result<nat>, ghost hit: bool)
      requires Valid() && dev != 0
      requires forall i: nat :: Caches(buf[..], i, dev, blockno) ==> !buf[i].locked
      modifies ide, buf
      ensures ide.disk == old(ide.disk) && ide.writes == old(ide.writes)
      ensures hit <==> exists i: nat :: Caches(old(buf[..]), i, dev, blockno)
      ensures r.Panic? <==>
                || (!hit && forall i :: 0 <= i < NBUF ==> !Usable(old(buf[i])))
                || ((dev != ROOTDEV || blockno >= |ide.disk|)
                    && forall i: nat :: Caches(old(buf[..]), i, dev, blockno) ==> !old(buf[..])[i].valid)
      ensures r.Ok? ==> Valid() && SameContent(old(buf[..]), ide.disk, buf[..], ide.disk)
      ensures r.Ok? ==>
                && r.value < NBUF && blockno < |ide.disk|
                && buf[..] == old(buf[..])[r.value := buf[r.value]]
                && buf[r.value] == Buf(ROOTDEV, blockno, true, hit && old(buf[r.value]).dirty, true,
                                       old(buf[r.value]).refcnt + 1, Content(old(buf[..]), ide.disk, blockno))
                && (if hit then Caches(old(buf[..]), r.value, dev, blockno) else Usable(old(buf[r.value])))
    {
      ghost var s := buf[..];
      r, hit := Bget(dev, blockno);
      if r.Panic? {
        return;
      }
      ghost var s1 := buf[..];
      assert Caches(s1, r.value, dev, blockno);
      Lock(r.value);
      ghost var s2 := buf[..];
      if !buf[r.value].valid {
        assert Caches(s2, r.value, dev, blockno);
        var e := Fill(r.value);
        if e.Panic? {
          return Panic(e.why), hit;
        }
      }
      if dev == ROOTDEV {
        ContentHeld(buf[..], ide.disk, r.value, blockno);
      }
    }

    // The holder of buffer i stores new data in it.
    method Store(i: nat, data: Block)
      requires Valid() && i < NBUF && buf[i].locked && buf[i].valid
      modifies buf
      ensures Valid() && buf[..] == old(buf[..])[i := old(buf[i]).(data := data)]
      ensures forall b: nat :: b < |ide.disk| ==>
                Content(buf[..], ide.disk, b)
                == if b == old(buf[i]).blockno then data else Content(old(buf[..]), ide.disk, b)
    {
      ghost var s := buf[..];
      var x := buf[i];
      x := x.(data := data);
      assert BufOk(s[i], ide.disk);
      assert Holds(s, i, x.blockno) && Holds(s[i := x], i, x.blockno);
      UpdateCoherent(s, ide.disk, i, x);
      StoreContent(s, ide.disk, i, x, x.blockno);
      hide Content, Coherent, Holds;
      buf[i] := x;
      assert buf[..] == s[i := x];
    }

    // bwrite of a buffer that the caller has locked.
    method Bwrite(i: nat) returns (r: Result<()>)
      requires Valid() && i < NBUF && buf[i].valid
      modifies ide, buf
      ensures r.Panic? <==> !old(buf[i]).locked
      ensures r.Ok? ==>
                && Valid() && SameContent(old(buf[..]), old(ide.disk), buf[..], ide.disk)
                && old(buf[i]).blockno < |ide.disk|
                && ide.disk == old(ide.disk)[old(buf[i]).blockno := old(buf[i]).data]
                && ide.writes == old(ide.writes) + [Write(old(buf[i]).blockno, old(buf[i]).data)]
                && buf[..] == old(buf[..])[i := old(buf[i]).(dirty := false)]
    {
      ghost var s := buf[..];
      if !buf[i].locked {
        return Panic("bwrite");
      }
      assert BufOk(s[i], ide.disk);
      FlushKeeps(s, ide.disk, i);
      var x := buf[i];
      buf[i] := x.(dirty := true);
      r := Iderw(i);
      assert buf[..] == s[i := s[i].(dirty := false)];
    }

    // brelse by the process that holds buffer i and has either left its block as the disk has
    // it or handed it to the log.
    method Brelse(i: nat) returns (r: Result<()>, ghost k: nat)
      requires Valid() && i < NBUF && buf[i].valid
      requires buf[i].dirty || buf[i].data == ide.disk[buf[i].blockno]
      modifies buf, ring, ring.prev, ring.next
      ensures r.Panic? <==> !old(buf[i]).locked
      ensures r.Ok? ==>
                && Valid() && SameContent(old(buf[..]), ide.disk, buf[..], ide.disk)
                && buf[..] == old(buf[..])[i := old(buf[i]).(locked := false, refcnt := old(buf[i]).refcnt - 1)]
                && k < NBUF == |old(ring.order)| && old(ring.order)[k] == i
                && ring.order == if buf[i].refcnt == 0 then MovedToFront(old(ring.order), k) else old(ring.order)
    {
      ghost var s := buf[..];
      assert BufOk(s[i], ide.disk);
      k := 0;
      if !buf[i].locked {
        return Panic("brelse"), k;
      }
      var x := buf[i];
      x := x.(locked := false, refcnt := x.refcnt - 1);
      UpdateCoherent(s, ide.disk, i, x);
      UpdateContent(s, ide.disk, i, x);
      buf[i] := x;
      assert buf[..] == s[i := x];
      assert i in ring.order;
      k :| k < NBUF && ring.order[k] == i;
      if x.refcnt == 0 {
        ring.MoveToFront(i, k);
      }
      return Ok(()), k;
    }
  }
}
