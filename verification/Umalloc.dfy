// The Kernighan and Ritchie allocator of user programs (umalloc.c): malloc, free and morecore over a
// circular list of free blocks.  Addresses and sizes are counted in units of sizeof(Header).
module Umalloc {
  import opened Params
  import opened FreeRing

  const HEADER: nat := 8            // sizeof(Header)
  const TWO32: nat := 0x1_0000_0000
  const MINCORE: nat := 4096

  // The units for nbytes, rounded up in 32-bit arithmetic, and one for the header.
  function Units(nbytes: nat): (n: nat)
    ensures n >= 1
  {
    (nbytes + HEADER - 1) % TWO32 / HEADER + 1
  }

  // The block is large enough for nbytes exactly if rounding up does not wrap, and then no unit is too
  // many; if it wraps there is room for the header alone.
  lemma UnitsEnough(nbytes: nat)
    requires nbytes < TWO32
    ensures (Units(nbytes) - 1) * HEADER >= nbytes <==> nbytes + HEADER - 1 < TWO32
    ensures nbytes + HEADER - 1 < TWO32 ==> (Units(nbytes) - 1) * HEADER < nbytes + HEADER
    ensures nbytes + HEADER - 1 >= TWO32 ==> Units(nbytes) == 1
  {
    if nbytes + HEADER - 1 >= TWO32 {
      assert (nbytes + HEADER - 1) % TWO32 == nbytes + HEADER - 1 - TWO32;
    }
  }

  // What morecore asks the system for.
  function CoreUnits(n: nat): nat { if n < MINCORE then MINCORE else n }

  // The last block from the system: no smaller than 4096 units and than nu, and no larger than one of them.
  predicate CoreFor(cores: seq<Block>, addr: nat, nu: nat) {
    cores != [] && var b := cores[|cores| - 1];
    b.addr == addr && b.size >= 4096 && b.size >= nu && (b.size == 4096 || b.size == nu)
  }

  ghost predicate HasFit(ring: seq<Block>, n: nat) {
    exists k :: 0 <= k < |ring| && ring[k].size >= n
  }

  // ---- the links and sizes in memory ----

  predicate LinkedAt(ring: seq<Block>, ptr: map<nat, nat>, size: map<nat, nat>, k: nat)
    requires k < |ring|
  {
    && ring[k].addr in ptr && ptr[ring[k].addr] == Next(ring, k)
    && ring[k].addr in size && size[ring[k].addr] == ring[k].size
  }

  ghost predicate Linked(ring: seq<Block>, ptr: map<nat, nat>, size: map<nat, nat>) {
    forall k :: 0 <= k < |ring| ==> LinkedAt(ring, ptr, size, k)
  }

  // All links but that of block pos.
  ghost predicate HalfLinked(ring: seq<Block>, ptr: map<nat, nat>, size: map<nat, nat>, pos: nat) {
    && (forall k :: 0 <= k < |ring| && k != pos ==> LinkedAt(ring, ptr, size, k))
    && pos < |ring| && ring[pos].addr in ptr && ring[pos].addr in size && size[ring[pos].addr] == ring[pos].size
  }

  lemma Distinct(ring: seq<Block>, j: nat, k: nat)
    requires Sorted(ring) && j < |ring| && k < |ring| && j != k
    ensures ring[j].addr != ring[k].addr
  {
    if j < k {
      assert ring[j].End() < ring[k].addr;
    } else {
      assert ring[k].End() < ring[j].addr;
    }
  }

  lemma NotInRing(ring: seq<Block>, bp: nat, sz: nat)
    requires Sorted(ring) && ring[0].addr < bp && Apart(ring, bp, sz)
    ensures forall i :: 0 <= i < |ring| ==> ring[i].addr != bp
  {
    forall i | 0 <= i < |ring| ensures ring[i].addr != bp {
      if i > 0 { CoversAt(ring, i, ring[i].addr); }
    }
  }

  lemma NextJoins(ring: seq<Block>, bp: nat, sz: nat)
    requires Sorted(ring) && ring[0].addr < bp && Apart(ring, bp, sz)
    ensures bp + sz == Next(ring, Pos(ring, bp)) <==> JoinsRight(ring, Pos(ring, bp), bp, sz)
  {
  }

  // The freed block takes over the link of the block below it; a neighbour that it touches from below
  // is swallowed, link and size.
  lemma AddedLinked(ring: seq<Block>, ptr: map<nat, nat>, size: map<nat, nat>, bp: nat, sz: nat)
    requires Sorted(ring) && Linked(ring, ptr, size) && ring[0].addr < bp && Apart(ring, bp, sz)
    requires bp in size && size[bp] == sz
    ensures var pos := Pos(ring, bp); var q := Next(ring, pos); var joined := bp + sz == q;
      && q in size && q in ptr
      && HalfLinked(Added(ring, pos, bp, sz), ptr[bp := if joined then ptr[q] else q],
                    if joined then size[bp := sz + size[q]] else size, pos)
  {
    hide Pos, Apart, Sorted, JoinsRight, Added, LinkedAt;
    NotInRing(ring, bp, sz);
    NextJoins(ring, bp, sz);
    var pos := Pos(ring, bp);
    NextLinked(ring, ptr, size, pos);
    AddedHead(ring, pos, bp, sz);
    var r := Added(ring, pos, bp, sz);
    var q := Next(ring, pos);
    var joined := JoinsRight(ring, pos, bp, sz);
    var ptr' := ptr[bp := if joined then ptr[q] else q];
    var size' := if joined then size[bp := sz + size[q]] else size;
    forall k | 0 <= k < |r| && k != pos ensures LinkedAt(r, ptr', size', k) {
      AddedLink(ring, ptr, size, pos, bp, sz, k);
    }
    assert ring[pos].addr != bp;
    assert HalfLinked(r, ptr', size', pos);
  }

  lemma NextLinked(ring: seq<Block>, ptr: map<nat, nat>, size: map<nat, nat>, k: nat)
    requires Linked(ring, ptr, size) && k < |ring|
    ensures Next(ring, k) in ptr && Next(ring, k) in size
    ensures ring[k].addr in ptr && ptr[ring[k].addr] == Next(ring, k) && ring[k].addr in size && size[ring[k].addr] == ring[k].size
  {
    assert LinkedAt(ring, ptr, size, k);
    assert LinkedAt(ring, ptr, size, if k + 1 == |ring| then 0 else k + 1);
  }

  lemma AddedHead(ring: seq<Block>, pos: nat, bp: nat, sz: nat)
    requires pos < |ring|
    ensures Added(ring, pos, bp, sz)[pos] == ring[pos] && Added(ring, pos, bp, sz)[pos + 1].addr == bp
    ensures pos + 1 < |Added(ring, pos, bp, sz)|
  {
  }

  lemma AddedLink(ring: seq<Block>, ptr: map<nat, nat>, size: map<nat, nat>, pos: nat, bp: nat, sz: nat, k: nat)
    requires Linked(ring, ptr, size) && pos < |ring| && bp in size && size[bp] == sz
    requires forall i :: 0 <= i < |ring| ==> ring[i].addr != bp
    requires k < |Added(ring, pos, bp, sz)| && k != pos
    ensures var q := Next(ring, pos); var joined := JoinsRight(ring, pos, bp, sz);
      && q in ptr && q in size
      && LinkedAt(Added(ring, pos, bp, sz), ptr[bp := if joined then ptr[q] else q],
                  if joined then size[bp := sz + size[q]] else size, k)
  {
    var q := Next(ring, pos);
    assert LinkedAt(ring, ptr, size, if pos + 1 == |ring| then 0 else pos + 1);
    if JoinsRight(ring, pos, bp, sz) {
      assert LinkedAt(ring, ptr, size, k);
    } else if k <= pos {
      assert LinkedAt(ring, ptr, size, k);
    } else if k > pos + 1 {
      assert LinkedAt(ring, ptr, size, k - 1);
    }
  }

  lemma NearlyDistinct(ring: seq<Block>, pos: nat, j: nat, k: nat)
    requires NearlySorted(ring, pos) && j < k < |ring|
    ensures ring[j].addr != ring[k].addr
  {
    assert (j != pos || k != pos + 1) ==> ring[j].End() < ring[k].addr;
  }

  // The block below is linked to the freed one, or swallows it if they touch.
  lemma JoinedLinked(ring: seq<Block>, ptr: map<nat, nat>, size: map<nat, nat>, pos: nat)
    requires NearlySorted(ring, pos) && HalfLinked(ring, ptr, size, pos)
    ensures var p, bp := ring[pos].addr, ring[pos + 1].addr; var joined := p + ring[pos].size == bp;
      && bp in ptr && bp in size && size[bp] == ring[pos + 1].size
      && Linked(Joined(ring, pos), ptr[p := if joined then ptr[bp] else bp],
                if joined then size[p := size[p] + size[bp]] else size)
  {
    var p, bp := ring[pos].addr, ring[pos + 1].addr;
    assert LinkedAt(ring, ptr, size, pos + 1);
    var joined := p + ring[pos].size == bp;
    var ptr' := ptr[p := if joined then ptr[bp] else bp];
    var size' := if joined then size[p := size[p] + size[bp]] else size;
    forall j | 0 <= j < |ring| && j != pos ensures ring[j].addr != ring[pos].addr {
      NearlyDistinct(ring, pos, if j < pos then j else pos, if j < pos then pos else j);
    }
    hide NearlySorted;
    var r := Joined(ring, pos);
    forall k | 0 <= k < |r| ensures LinkedAt(r, ptr', size', k) {
      JoinedLink(ring, ptr, size, pos, k);
    }
  }

  // Block k of the joined list and its successor, in terms of the list before.
  lemma JoinedShape(ring: seq<Block>, pos: nat, k: nat)
    requires pos + 1 < |ring| && k < |Joined(ring, pos)|
    ensures var joined := ring[pos].End() == ring[pos + 1].addr; var r := Joined(ring, pos);
      && r[k].addr == ring[if joined && k > pos then k + 1 else k].addr
      && r[k].size == (if joined && k > pos then ring[k + 1].size
                       else if joined && k == pos then ring[pos].size + ring[pos + 1].size else ring[k].size)
      && Next(r, k) == (if joined && k >= pos then Next(ring, k + 1) else Next(ring, k))
      && (joined && k >= pos ==> k + 1 < |ring|)
  {
  }

  lemma JoinedLink(ring: seq<Block>, ptr: map<nat, nat>, size: map<nat, nat>, pos: nat, k: nat)
    requires pos + 1 < |ring| && HalfLinked(ring, ptr, size, pos) && k < |Joined(ring, pos)|
    requires forall j :: 0 <= j < |ring| && j != pos ==> ring[j].addr != ring[pos].addr
    ensures var p, bp := ring[pos].addr, ring[pos + 1].addr; var joined := p + ring[pos].size == bp;
      && bp in ptr && bp in size && size[bp] == ring[pos + 1].size
      && LinkedAt(Joined(ring, pos), ptr[p := if joined then ptr[bp] else bp],
                  if joined then size[p := size[p] + size[bp]] else size, k)
  {
    assert LinkedAt(ring, ptr, size, pos + 1);
    JoinedShape(ring, pos, k);
    assert Next(ring, pos) == ring[pos + 1].addr;
    hide Joined, Next;
    if k != pos {
      var k' := if ring[pos].End() == ring[pos + 1].addr && k > pos then k + 1 else k;
      assert LinkedAt(ring, ptr, size, k');
    }
    hide HalfLinked;
  }

  // The links and sizes that free leaves when bp goes after p.
  function FreedMem(ptr: map<nat, nat>, size: map<nat, nat>, bp: nat, p: nat): (m: (map<nat, nat>, map<nat, nat>))
    requires bp in size && p in ptr && p in size && ptr[p] in ptr && ptr[p] in size
  {
    var q := ptr[p];
    var ptr1 := ptr[bp := if bp + size[bp] == q then ptr[q] else q];
    var size1 := if bp + size[bp] == q then size[bp := size[bp] + size[q]] else size;
    (ptr1[p := if p + size1[p] == bp then ptr1[bp] else bp],
     if p + size1[p] == bp then size1[p := size1[p] + size1[bp]] else size1)
  }

  lemma InsertedLinked(ring: seq<Block>, ptr: map<nat, nat>, size: map<nat, nat>, bp: nat, sz: nat)
    requires Sorted(ring) && Linked(ring, ptr, size) && ring[0].addr < bp && Apart(ring, bp, sz)
    requires bp in size && size[bp] == sz
    ensures var p := ring[Pos(ring, bp)].addr;
      && p in size && p in ptr && ptr[p] in ptr && ptr[p] in size
      && Linked(Inserted(ring, Pos(ring, bp), bp, sz), FreedMem(ptr, size, bp, p).0, FreedMem(ptr, size, bp, p).1)
  {
    hide Pos, Apart, Linked, HalfLinked, NearlySorted, Added, Joined, JoinsRight, Next;
    var pos := Pos(ring, bp);
    NextLinked(ring, ptr, size, pos);
    NotInRing(ring, bp, sz);
    assert ring[pos].addr != bp;
    AddedLinked(ring, ptr, size, bp, sz);
    AddedSorted(ring, bp, sz);
    AddedHead(ring, pos, bp, sz);
    var q := Next(ring, pos);
    var ptr1 := ptr[bp := if bp + sz == q then ptr[q] else q];
    var size1 := if bp + sz == q then size[bp := sz + size[q]] else size;
    JoinedLinked(Added(ring, pos, bp, sz), ptr1, size1, pos);
  }

  // The found block is skipped by its predecessor.
  lemma UnlinkedLinked(ring: seq<Block>, ptr: map<nat, nat>, size: map<nat, nat>, k: nat)
    requires Sorted(ring) && Linked(ring, ptr, size) && 0 < k < |ring|
    ensures var prevp, p := ring[k - 1].addr, ring[k].addr;
      prevp in ptr && p in ptr && Linked(Taken(ring, k, ring[k].size), ptr[prevp := ptr[p]], size)
  {
    var r := Taken(ring, k, ring[k].size);
    NextLinked(ring, ptr, size, k);
    NextLinked(ring, ptr, size, k - 1);
    var ptr' := ptr[ring[k - 1].addr := ptr[ring[k].addr]];
    forall j | 0 <= j < |r| ensures LinkedAt(r, ptr', size, j) {
      UnlinkedAt(ring, ptr, size, k, j);
    }
  }

  lemma UnlinkedAt(ring: seq<Block>, ptr: map<nat, nat>, size: map<nat, nat>, k: nat, j: nat)
    requires Sorted(ring) && Linked(ring, ptr, size) && 0 < k < |ring| && j < |ring| - 1
    requires ring[k].addr in ptr && ptr[ring[k].addr] == Next(ring, k)
    ensures LinkedAt(Taken(ring, k, ring[k].size), ptr[ring[k - 1].addr := ptr[ring[k].addr]], size, j)
  {
    var r := Taken(ring, k, ring[k].size);
    var i := if j >= k then j + 1 else j;
    assert LinkedAt(ring, ptr, size, i);
    if i != k - 1 { Distinct(ring, i, k - 1); }
    hide Sorted, Linked;
    var next := if j + 1 == |r| then 0 else j + 1;
    assert r[j] == ring[i] && r[next] == ring[if next >= k then next + 1 else next];
    hide Taken;
  }

  // The found block is shortened, and its tail gets a header of its own.
  lemma TailLinked(ring: seq<Block>, ptr: map<nat, nat>, size: map<nat, nat>, k: nat, n: nat)
    requires Sorted(ring) && Linked(ring, ptr, size) && 0 < k < |ring| && 1 <= n < ring[k].size
    ensures var p := ring[k].addr; var tail := p + (ring[k].size - n);
      Linked(Taken(ring, k, n), ptr, size[p := ring[k].size - n][tail := n])
  {
    var r := Taken(ring, k, n);
    var p := ring[k].addr;
    var tail := p + (ring[k].size - n);
    var size' := size[p := ring[k].size - n][tail := n];
    forall j | 0 <= j < |r| ensures LinkedAt(r, ptr, size', j) {
      assert LinkedAt(ring, ptr, size, j);
      assert j < k ==> ring[j].End() < ring[k].addr;
      assert j > k ==> ring[k].End() < ring[j].addr;
    }
  }

  // The block below bp stays where it is in the list.
  lemma InsertedKeepsPos(ring: seq<Block>, bp: nat, sz: nat)
    requires |ring| >= 1
    ensures var pos := Pos(ring, bp); var r := Inserted(ring, pos, bp, sz);
      pos < |r| && r[pos].addr == ring[pos].addr
  {
    hide Pos;
  }

  // The headers of allocated blocks are intact, and all lie above base.
  ghost predicate Headers(alloc: map<nat, nat>, size: map<nat, nat>, base: nat) {
    forall a :: a in alloc ==> a > base && a in size && size[a] == alloc[a]
  }

  lemma HeadersKept(alloc: map<nat, nat>, ptr: map<nat, nat>, size: map<nat, nat>, base: nat, bp: nat, p: nat)
    requires Headers(alloc, size, base) && p !in alloc
    requires bp in size && p in ptr && p in size && ptr[p] in ptr && ptr[p] in size
    ensures Headers(alloc - {bp}, FreedMem(ptr, size, bp, p).1, base)
  {
  }

  lemma HeaderOf(alloc: map<nat, nat>, size: map<nat, nat>, base: nat, bp: nat)
    requires Headers(alloc, size, base)
    ensures forall a :: a in alloc ==> a > base
    ensures bp in alloc ==> bp in size && size[bp] == alloc[bp]
  {
  }

  lemma RingNotAllocated(ring: seq<Block>, alloc: map<nat, nat>, cores: seq<Block>, k: nat)
    requires Sorted(ring) && Accounted(ring, alloc, cores) && k < |ring|
    requires forall a :: a in alloc ==> a > ring[0].addr
    ensures ring[k].addr !in alloc
  {
    hide Covers, Holds;
    if k > 0 {
      CoversAt(ring, k, ring[k].addr);
      if ring[k].addr in alloc {
        HoldsAt(alloc, ring[k].addr, ring[k].addr);
      }
    }
  }

  // A header written into fresh memory disturbs neither the free list nor an allocated block.
  lemma CoreHeader(ring: seq<Block>, alloc: map<nat, nat>, cores: seq<Block>, ptr: map<nat, nat>, size: map<nat, nat>,
                   base: nat, hp: nat, nu: nat)
    requires Sorted(ring) && Linked(ring, ptr, size) && ring[0].addr == base
    requires Accounted(ring, alloc, cores) && Headers(alloc, size, base)
    requires base < hp && nu >= 1 && forall u :: hp <= u < hp + nu ==> !Covers(cores, u)
    ensures Linked(ring, ptr, size[hp := nu]) && Headers(alloc[hp := nu], size[hp := nu], base)
  {
    hide Covers, Holds;
    assert !Covers(ring, hp) && !Holds(alloc, hp);
    var size' := size[hp := nu];
    forall k | 0 <= k < |ring| ensures LinkedAt(ring, ptr, size', k) {
      assert LinkedAt(ring, ptr, size, k);
      if k > 0 { CoversAt(ring, k, ring[k].addr); }
    }
    forall a | a in alloc ensures a != hp {
      HoldsAt(alloc, a, a);
    }
  }

  lemma InsertedFits(ring: seq<Block>, pos: nat, bp: nat, sz: nat, n: nat)
    requires pos < |ring| && n <= sz
    ensures HasFit(Inserted(ring, pos, bp, sz), n)
  {
    var r := Inserted(ring, pos, bp, sz);
    var k := if ring[pos].End() == bp then pos else pos + 1;
    assert r[k].size >= n;
  }

  // ---- walking the ring ----

  function After(n: nat, k: nat): nat { if k + 1 == n then 0 else k + 1 }

  // Steps from block k forward to block j.
  function Ahead(n: nat, k: nat, j: nat): (d: nat)
    requires k < n && j < n
  {
    if k <= j then j - k else j - k + n
  }

  lemma NextIs(ring: seq<Block>, ptr: map<nat, nat>, size: map<nat, nat>, k: nat)
    requires Linked(ring, ptr, size) && k < |ring|
    ensures ring[k].addr in ptr && ring[k].addr in size && size[ring[k].addr] == ring[k].size
    ensures After(|ring|, k) < |ring| && ptr[ring[k].addr] == ring[After(|ring|, k)].addr
  {
    assert LinkedAt(ring, ptr, size, k);
  }

  // An address names one free block only.
  lemma SameIndex(ring: seq<Block>, j: nat, k: nat)
    requires Sorted(ring) && j < |ring| && k < |ring|
    ensures ring[j].addr == ring[k].addr <==> j == k
  {
    if j != k { Distinct(ring, j, k); }
  }

  lemma AboveBase(ring: seq<Block>, k: nat)
    requires Sorted(ring) && k < |ring|
    ensures ring[k].addr >= ring[0].addr
  {
    if k > 0 { assert ring[0].End() < ring[k].addr; }
  }

  // Blocks that would do lie ahead of k, at the latest at `at`.
  ghost predicate Unseen(ring: seq<Block>, n: nat, k: nat, at: nat) {
    k < |ring| && at < |ring|
    && forall i :: 0 <= i < |ring| && ring[i].size >= n ==> Ahead(|ring|, k, i) <= Ahead(|ring|, k, at)
  }

  lemma UnseenAtStart(ring: seq<Block>, n: nat, at: nat)
    requires at < |ring|
    ensures Unseen(ring, n, After(|ring|, at), at)
  {
  }

  lemma UnseenStep(ring: seq<Block>, n: nat, k: nat, at: nat)
    requires Unseen(ring, n, k, at) && k != at && ring[k].size < n
    ensures Unseen(ring, n, After(|ring|, k), at)
    ensures Ahead(|ring|, After(|ring|, k), at) < Ahead(|ring|, k, at)
  {
  }

  lemma NoFit(ring: seq<Block>, n: nat, k: nat)
    requires Unseen(ring, n, k, k) && ring[k].size < n
    ensures !HasFit(ring, n)
  {
  }

  // A fitting block is not base.
  lemma FitAt(ring: seq<Block>, n: nat, k: nat)
    requires Sorted(ring) && k < |ring| && ring[k].size >= n >= 1
    ensures k > 0 && HasFit(ring, n)
  {
  }

  lemma TakenBefore(ring: seq<Block>, k: nat, n: nat)
    requires 0 < k < |ring| && n <= ring[k].size
    ensures k - 1 < |Taken(ring, k, n)| && Taken(ring, k, n)[k - 1] == ring[k - 1]
  {
  }

  lemma TakenHeaders(ring: seq<Block>, alloc: map<nat, nat>, cores: seq<Block>, size: map<nat, nat>, base: nat, k: nat, n: nat)
    requires Sorted(ring) && Accounted(ring, alloc, cores) && Headers(alloc, size, base) && ring[0].addr == base
    requires 0 < k < |ring| && 1 <= n <= ring[k].size
    ensures var p := ring[k].addr; var t := p + (ring[k].size - n);
      && (n == ring[k].size && p in size && size[p] == n ==> Headers(alloc[p := n], size, base))
      && Headers(alloc[t := n], size[p := ring[k].size - n][t := n], base)
  {
    RingNotAllocated(ring, alloc, cores, k);
    assert ring[0].End() < ring[k].addr;
  }

  // The first call links the empty base block to itself.
  lemma Initial(base: nat)
    ensures Sorted([Block(base, 0)]) && Accounted([Block(base, 0)], map[], [])
  {
  }

  lemma LinkedInitial(ptr: map<nat, nat>, size: map<nat, nat>, base: nat, n: nat)
    requires base in ptr && ptr[base] == base && base in size && size[base] == 0 && n >= 1
    ensures Linked([Block(base, 0)], ptr, size) && Headers(map[], size, base)
    ensures !HasFit([Block(base, 0)], n) && !HasFit([], n)
  {
  }

  class Heap {
    const base: nat                 // &base
    var ptr: map<nat, nat>          // s.ptr of the header at each address
    var size: map<nat, nat>         // s.size
    var freep: nat                  // 0 before the first malloc
    ghost var ring: seq<Block>      // the free list from base on
    ghost var at: nat               // freep's place in it
    ghost var alloc: map<nat, nat>  // blocks handed out, with their sizes
    ghost var cores: seq<Block>     // what sbrk gave

    constructor (b: nat)
      requires b > 0
      ensures Valid() && base == b && freep == 0
    {
      base, ptr, size, freep := b, map[], map[], 0;
      ring, at, alloc, cores := [], 0, map[], [];
    }

    ghost predicate Ready()
      reads this
    {
      && Sorted(ring) && Linked(ring, ptr, size) && ring[0].addr == base
      && at < |ring| && ring[at].addr == freep && freep >= base
      && Accounted(ring, alloc, cores) && Headers(alloc, size, base)
    }

    ghost predicate Valid()
      reads this
    {
      && base > 0
      && if freep == 0 then ring == [] && alloc == map[] && cores == [] else Ready()
    }

    // The search loop of free: it comes around to the one place where bp belongs.
    method FindPlace(bp: nat) returns (p: nat)
      requires Ready() && base < bp && forall k :: 0 <= k < |ring| ==> ring[k].addr != bp
      ensures p == ring[Pos(ring, bp)].addr
    {
      hide Linked, Accounted, Headers, Pos, Sorted;
      p := freep;
      ghost var k := at;
      NextIs(ring, ptr, size, k);
      FoundOnlyAtPos(ring, bp, k);
      while !(bp > p && bp < ptr[p])
        invariant 0 <= k < |ring| && p == ring[k].addr && p in ptr && ptr[p] == Next(ring, k)
        invariant (bp > p && bp < ptr[p]) || (p >= ptr[p] && (bp > p || bp < ptr[p])) <==> k == Pos(ring, bp)
        decreases Ahead(|ring|, k, Pos(ring, bp))
      {
        if p >= ptr[p] && (bp > p || bp < ptr[p]) {
          break;
        }
        p := ptr[p];
        k := After(|ring|, k);
        NextIs(ring, ptr, size, k);
        FoundOnlyAtPos(ring, bp, k);
      }
    }

    // free, once bp is known.
    method FreeBlock(bp: nat)
      requires base > 0 && Ready() && bp in alloc
      modifies this
      ensures freep > 0 && Ready() && cores == old(cores) && alloc == old(alloc) - {bp}
      ensures |old(ring)| >= 1 && at == Pos(old(ring), bp) && ring == Inserted(old(ring), at, bp, old(alloc)[bp])
    {
      hide Linked, Pos, Sorted, Inserted, Accounted, Apart, Headers;
      HeaderOf(alloc, size, base, bp);
      ghost var sz, pos := alloc[bp], Pos(ring, bp);
      FreeAccounted(ring, alloc, cores, bp);
      NotInRing(ring, bp, sz);
      InsertedLinked(ring, ptr, size, bp, sz);
      InsertedSorted(ring, bp, sz);
      RingNotAllocated(ring, alloc, cores, pos);
      AboveBase(ring, pos);
      InsertedKeepsPos(ring, bp, sz);
      var p := FindPlace(bp);
      HeadersKept(alloc, ptr, size, base, bp, p);
      ghost var m := FreedMem(ptr, size, bp, p);
      if bp + size[bp] == ptr[p] {
        var q := ptr[p];
        size := size[bp := size[bp] + size[q]];
        ptr := ptr[bp := ptr[q]];
      } else {
        ptr := ptr[bp := ptr[p]];
      }
      if p + size[p] == bp {
        size := size[p := size[p] + size[bp]];
        ptr := ptr[p := ptr[bp]];
      } else {
        ptr := ptr[p := bp];
      }
      assert ptr == m.0 && size == m.1;
      hide FreedMem;
      freep := p;
      at := pos;
      ring := Inserted(ring, at, bp, sz);
      alloc := alloc - {bp};
    }

    // Give back the block whose payload starts at ap.
    method Free(ap: nat)
      requires Valid() && ap >= 1 && ap - 1 in alloc
      modifies this
      ensures Valid() && cores == old(cores) && alloc == old(alloc) - {ap - 1}
    {
      hide Ready;
      FreeBlock(ap - 1);
    }

    // Ask the system for memory; brk is what sbrk returns, None standing for (char*)-1.
    method Morecore(nu: nat, brk: Option<nat>) returns (p: nat)
      requires base > 0 && Ready() && nu >= 1 && CanGive(brk, CoreUnits(nu))
      modifies this
      ensures freep > 0 && Ready() && alloc == old(alloc)
      ensures brk.None? ==> p == 0 && ring == old(ring) && cores == old(cores) && at == old(at) && freep == old(freep)
      ensures brk.Some? ==> p == freep && cores == old(cores) + [Block(brk.value, CoreUnits(nu))] && HasFit(ring, nu)
      ensures brk.Some? ==> CoreFor(cores, brk.value, nu)
    {
      hide Linked, Sorted, Pos, Inserted, Accounted, Headers;
      if brk.None? {
        return 0;
      }
      var hp := brk.value;
      CoreAccounted(ring, alloc, cores, hp, CoreUnits(nu));
      CoreHeader(ring, alloc, cores, ptr, size, base, hp, CoreUnits(nu));
      size := size[hp := CoreUnits(nu)];
      alloc := alloc[hp := CoreUnits(nu)];
      cores := cores + [Block(hp, CoreUnits(nu))];
      InsertedFits(ring, Pos(ring, hp), hp, CoreUnits(nu), nu);
      assert alloc - {hp} == old(alloc);
      FreeBlock(hp);
      p := freep;
    }

    // sbrk answers with memory above base that was not given before.
    ghost predicate CanGive(brk: Option<nat>, nu: nat)
      reads this
    {
      brk.Some? ==> brk.value > base && forall u :: brk.value <= u < brk.value + nu ==> !Covers(cores, u)
    }

    // The free block p is large enough: unlink it, or cut the last nunits off it.
    method Take(prevp: nat, p: nat, nunits: nat, ghost k: nat) returns (r: nat)
      requires base > 0 && Ready() && 0 < k < |ring| && 1 <= nunits <= ring[k].size
      requires prevp == ring[k - 1].addr && p == ring[k].addr
      modifies this
      ensures freep > 0 && Ready() && cores == old(cores) && ring == Taken(old(ring), k, nunits)
      ensures r > 0 && r - 1 !in old(alloc) && alloc == old(alloc)[r - 1 := nunits]
    {
      hide Linked, Sorted, Taken, Accounted, Headers;
      NextIs(ring, ptr, size, k);
      NextIs(ring, ptr, size, k - 1);
      TakeAccounted(ring, alloc, cores, k, nunits);
      TakenSorted(ring, k, nunits);
      TakenHeaders(ring, alloc, cores, size, base, k, nunits);
      AboveBase(ring, k - 1);
      if size[p] == nunits {
        UnlinkedLinked(ring, ptr, size, k);
        ptr := ptr[prevp := ptr[p]];
        r := p + 1;
      } else {
        TailLinked(ring, ptr, size, k, nunits);
        size := size[p := size[p] - nunits];
        var t := p + size[p];
        size := size[t := nunits];
        r := t + 1;
      }
      TakenBefore(ring, k, nunits);
      freep := prevp;
      at := k - 1;
      ring := Taken(ring, k, nunits);
      alloc := alloc[r - 1 := nunits];
    }

    // malloc: brk is what sbrk would return if it is called.  0 stands for a null pointer.
    method Malloc(nbytes: nat, brk: Option<nat>) returns (r: nat)
      requires Valid() && nbytes < 0x8000_0000 - 2 * HEADER && CanGive(brk, CoreUnits(Units(nbytes)))
      modifies this
      ensures Valid()
      ensures var n := Units(nbytes);
        && nbytes <= (n - 1) * HEADER < nbytes + HEADER
        && (r == 0 <==> brk.None? && !HasFit(old(ring), n))
        && (r == 0 ==> alloc == old(alloc))
        && (r > 0 ==> r - 1 !in old(alloc) && alloc == old(alloc)[r - 1 := n])
        && cores == (if HasFit(old(ring), n) || brk.None? then old(cores)
                     else old(cores) + [Block(brk.value, CoreUnits(n))])
    {
      hide Linked, Sorted, Accounted, Headers, HasFit, Unseen;
      var nunits := Units(nbytes);
      UnitsEnough(nbytes);
      var prevp := freep;
      if prevp == 0 {
        Initial(base);
        ptr := ptr[base := base];
        freep := base;
        prevp := base;
        size := size[base := 0];
        ring := [Block(base, 0)];
        at := 0;
        LinkedInitial(ptr, size, base, nunits);
      }
      ghost var ring0 := ring;
      ghost var called := false;
      NextIs(ring, ptr, size, at);
      var p := ptr[prevp];
      ghost var j, k := at, After(|ring|, at);
      UnseenAtStart(ring, nunits, at);
      while true
        invariant 0 <= j < |ring| && k == After(|ring|, j) < |ring| && prevp == ring[j].addr && p == ring[k].addr
        invariant freep > 0 && Ready() && alloc == old(alloc) && Unseen(ring, nunits, k, at)
        invariant !called ==> ring == ring0 && cores == old(cores)
        invariant called ==> HasFit(ring, nunits) && !HasFit(ring0, nunits) && brk.Some?
                             && cores == old(cores) + [Block(brk.value, CoreUnits(nunits))]
        decreases !called, Ahead(|ring|, k, at)
      {
        NextIs(ring, ptr, size, k);
        if size[p] >= nunits {
          FitAt(ring, nunits, k);
          r := Take(prevp, p, nunits, k);
          return;
        }
        SameIndex(ring, k, at);
        if p == freep {
          NoFit(ring, nunits, k);
          p := Morecore(nunits, brk);
          if p == 0 {
            return 0;
          }
          called := true;
          k := at;
          UnseenAtStart(ring, nunits, at);
        } else {
          UnseenStep(ring, nunits, k, at);
        }
        prevp := p;
        NextIs(ring, ptr, size, k);
        p := ptr[p];
        j := k;
        k := After(|ring|, k);
      }
    }
  }
}
