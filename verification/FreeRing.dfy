// The free list of the user-level allocator (umalloc.c) as a sorted list of blocks: how freeing a
// block and taking one change it, and which units of memory it covers.  Addresses and sizes are
// counted in units of sizeof(Header).
module FreeRing {
  datatype Block = Block(addr: nat, size: nat) {
    function End(): nat { addr + size }
  }

  // ring[0] is `base`, the static header of size 0 below the heap.  Blocks are in address order and
  // no two of them touch.
  ghost predicate Sorted(ring: seq<Block>) {
    && |ring| >= 1 && ring[0].size == 0
    && (forall k :: 0 < k < |ring| ==> ring[k].size >= 1)
    && (forall j, k :: 0 <= j < k < |ring| ==> ring[j].End() < ring[k].addr)
  }

  ghost predicate Covers(bs: seq<Block>, u: nat) {
    exists k :: 0 <= k < |bs| && bs[k].addr <= u < bs[k].End()
  }

  ghost predicate Holds(alloc: map<nat, nat>, u: nat) {
    exists a :: a in alloc && a <= u < a + alloc[a]
  }

  // Every unit of the memory that sbrk gave is in a free or an allocated block, never in both.
  ghost predicate Partition(ring: seq<Block>, alloc: map<nat, nat>, cores: seq<Block>) {
    && (forall u: nat :: Covers(cores, u) <==> Covers(ring, u) || Holds(alloc, u))
    && (forall u: nat :: !(Covers(ring, u) && Holds(alloc, u)))
  }

  // Allocated blocks are disjoint.
  ghost predicate Separate(alloc: map<nat, nat>) {
    && (forall a, b :: a in alloc && b in alloc && a < b ==> a + alloc[a] <= b)
    && (forall a :: a in alloc ==> alloc[a] >= 1)
  }

  ghost predicate Accounted(ring: seq<Block>, alloc: map<nat, nat>, cores: seq<Block>) {
    Partition(ring, alloc, cores) && Separate(alloc)
  }

  // ---- where free puts a block ----

  // Index of the last free block below bp.
  function Pos(ring: seq<Block>, bp: nat): (k: nat)
    requires |ring| >= 1
    ensures k < |ring|
  {
    if |ring| == 1 || ring[|ring| - 1].addr < bp then |ring| - 1 else Pos(ring[..|ring| - 1], bp)
  }

  function Next(ring: seq<Block>, k: nat): nat
    requires k < |ring|
  {
    ring[if k + 1 == |ring| then 0 else k + 1].addr
  }

  lemma {:induction false} PosIs(ring: seq<Block>, bp: nat)
    requires Sorted(ring) && ring[0].addr < bp
    ensures ring[Pos(ring, bp)].addr < bp
    ensures forall k :: Pos(ring, bp) < k < |ring| ==> bp <= ring[k].addr
  {
    if !(|ring| == 1 || ring[|ring| - 1].addr < bp) {
      PosIs(ring[..|ring| - 1], bp);
    }
  }

  // The exit tests of the search in free hold at Pos and nowhere else.
  lemma FoundOnlyAtPos(ring: seq<Block>, bp: nat, k: nat)
    requires Sorted(ring) && ring[0].addr < bp && k < |ring|
    requires forall j :: 0 <= j < |ring| ==> ring[j].addr != bp
    ensures var p, q := ring[k].addr, Next(ring, k);
      k == Pos(ring, bp) <==> (bp > p && bp < q) || (p >= q && (bp > p || bp < q))
  {
    PosIs(ring, bp);
    var pos := Pos(ring, bp);
    if k + 1 < |ring| {
      assert ring[k].End() < ring[k + 1].addr;
      if k < pos { assert k + 1 == pos || ring[k + 1].End() < ring[pos].addr; }
    } else if k > 0 {
      assert ring[0].End() < ring[k].addr;
    }
  }

  // ---- freeing ----

  ghost predicate Apart(ring: seq<Block>, bp: nat, sz: nat) {
    sz >= 1 && forall u :: bp <= u < bp + sz ==> !Covers(ring, u)
  }

  predicate JoinsRight(ring: seq<Block>, pos: nat, bp: nat, sz: nat)
    requires pos < |ring|
  {
    pos + 1 < |ring| && bp + sz == ring[pos + 1].addr
  }

  // First half of free: the block goes above ring[pos], merged with the block after it if they touch.
  function Added(ring: seq<Block>, pos: nat, bp: nat, sz: nat): (r: seq<Block>)
    requires pos < |ring|
    ensures |r| > pos + 1
  {
    if JoinsRight(ring, pos, bp, sz) then ring[pos + 1 := Block(bp, sz + ring[pos + 1].size)]
    else ring[..pos + 1] + [Block(bp, sz)] + ring[pos + 1..]
  }

  // Second half: it is merged with ring[pos] if they touch.
  function Joined(ring: seq<Block>, pos: nat): seq<Block>
    requires pos + 1 < |ring|
  {
    if ring[pos].End() == ring[pos + 1].addr
    then ring[..pos] + [Block(ring[pos].addr, ring[pos].size + ring[pos + 1].size)] + ring[pos + 2..]
    else ring
  }

  // The list after free.
  function Inserted(ring: seq<Block>, pos: nat, bp: nat, sz: nat): seq<Block>
    requires pos < |ring|
  {
    Joined(Added(ring, pos, bp, sz), pos)
  }

  // Sorted, but blocks pos and pos + 1 may touch.
  ghost predicate NearlySorted(ring: seq<Block>, pos: nat) {
    && |ring| >= 1 && ring[0].size == 0 && pos + 1 < |ring|
    && (forall k :: 0 < k < |ring| ==> ring[k].size >= 1)
    && (forall j, k :: 0 <= j < k < |ring| && (j != pos || k != pos + 1) ==> ring[j].End() < ring[k].addr)
    && ring[pos].End() <= ring[pos + 1].addr && (pos == 0 ==> ring[0].End() < ring[1].addr)
  }

  lemma Above(ring: seq<Block>, bp: nat, sz: nat, k: nat)
    requires Sorted(ring) && Apart(ring, bp, sz) && 0 < k < |ring| && bp <= ring[k].addr
    ensures bp + sz <= ring[k].addr
  {
    CoversAt(ring, k, ring[k].addr);
  }

  lemma Below(ring: seq<Block>, bp: nat, sz: nat, k: nat)
    requires Sorted(ring) && Apart(ring, bp, sz) && k < |ring| && ring[k].addr < bp
    ensures ring[k].End() <= bp
  {
    hide Covers;
    if bp < ring[k].End() {
      CoversAt(ring, k, bp);
    }
  }

  // Neighbours of a block that shares no unit with the free ones.
  lemma Neighbours(ring: seq<Block>, bp: nat, sz: nat)
    requires Sorted(ring) && ring[0].addr < bp && Apart(ring, bp, sz)
    ensures var pos := Pos(ring, bp);
      && (forall k :: pos < k < |ring| ==> bp + sz <= ring[k].addr)
      && (forall k :: 0 <= k < pos ==> ring[k].End() < bp)
      && ring[pos].End() <= bp && ring[pos].addr < bp
  {
    PosIs(ring, bp);
    hide Apart, Pos;
    var pos := Pos(ring, bp);
    Below(ring, bp, sz, pos);
    forall k | pos < k < |ring| ensures bp + sz <= ring[k].addr {
      Above(ring, bp, sz, k);
    }
    assert forall k :: 0 <= k < pos ==> ring[k].End() < ring[pos].addr;
  }

  lemma ApartSize(ring: seq<Block>, bp: nat, sz: nat)
    requires Apart(ring, bp, sz)
    ensures sz >= 1
  {
  }

  lemma AddedSorted(ring: seq<Block>, bp: nat, sz: nat)
    requires Sorted(ring) && ring[0].addr < bp && Apart(ring, bp, sz)
    ensures var r := Added(ring, Pos(ring, bp), bp, sz); NearlySorted(r, Pos(ring, bp)) && r[0] == ring[0]
  {
    hide Apart, Pos;
    Neighbours(ring, bp, sz);
    assert sz >= 1 by { hide *; ApartSize(ring, bp, sz); }
    var pos := Pos(ring, bp);
    var r := Added(ring, pos, bp, sz);
    assert forall k :: 0 < k < |r| ==> r[k].size >= 1;
    forall j, k | 0 <= j < k < |r| && (j != pos || k != pos + 1) ensures r[j].End() < r[k].addr {
      AddedPair(ring, pos, bp, sz, j, k);
    }
  }

  lemma AddedPair(ring: seq<Block>, pos: nat, bp: nat, sz: nat, j: nat, k: nat)
    requires Sorted(ring) && pos < |ring| && sz >= 1
    requires forall i :: pos < i < |ring| ==> bp + sz <= ring[i].addr
    requires forall i :: 0 <= i < pos ==> ring[i].End() < bp
    requires j < k < |Added(ring, pos, bp, sz)| && (j != pos || k != pos + 1)
    ensures Added(ring, pos, bp, sz)[j].End() < Added(ring, pos, bp, sz)[k].addr
  {
    var r := Added(ring, pos, bp, sz);
    if JoinsRight(ring, pos, bp, sz) {
      assert r[j] == if j == pos + 1 then Block(bp, sz + ring[pos + 1].size) else ring[j];
      assert r[k] == if k == pos + 1 then Block(bp, sz + ring[pos + 1].size) else ring[k];
    } else {
      assert r[j] == if j <= pos then ring[j] else if j == pos + 1 then Block(bp, sz) else ring[j - 1];
      assert r[k] == if k <= pos then ring[k] else if k == pos + 1 then Block(bp, sz) else ring[k - 1];
    }
  }

  lemma JoinedSorted(ring: seq<Block>, pos: nat)
    requires NearlySorted(ring, pos)
    ensures Sorted(Joined(ring, pos)) && Joined(ring, pos)[0].addr == ring[0].addr
  {
    var r := Joined(ring, pos);
    if ring[pos].End() == ring[pos + 1].addr {
      var b := Block(ring[pos].addr, ring[pos].size + ring[pos + 1].size);
      assert forall k :: 0 <= k < |r| ==> r[k] == if k < pos then ring[k] else if k == pos then b else ring[k + 1];
      forall j, k | 0 <= j < k < |r| ensures r[j].End() < r[k].addr {
        var j' := if j < pos then j else j + 1;
        var k' := if k <= pos then k else k + 1;
        assert ring[j'].End() < ring[k'].addr;
      }
    }
  }

  lemma InsertedSorted(ring: seq<Block>, bp: nat, sz: nat)
    requires Sorted(ring) && ring[0].addr < bp && Apart(ring, bp, sz)
    ensures var r := Inserted(ring, Pos(ring, bp), bp, sz); Sorted(r) && r[0].addr == ring[0].addr
  {
    hide Apart, Pos, Added, Joined, Sorted, NearlySorted;
    AddedSorted(ring, bp, sz);
    JoinedSorted(Added(ring, Pos(ring, bp), bp, sz), Pos(ring, bp));
  }

  lemma CoversAt(bs: seq<Block>, k: nat, u: nat)
    requires k < |bs| && bs[k].addr <= u < bs[k].End()
    ensures Covers(bs, u)
  {
  }

  lemma AddedCovers(ring: seq<Block>, pos: nat, bp: nat, sz: nat, u: nat)
    requires pos < |ring| && sz >= 1
    ensures Covers(Added(ring, pos, bp, sz), u) <==> Covers(ring, u) || bp <= u < bp + sz
  {
    var r := Added(ring, pos, bp, sz);
    var up := if JoinsRight(ring, pos, bp, sz) then 0 else 1;
    if Covers(r, u) {
      var k :| 0 <= k < |r| && r[k].addr <= u < r[k].End();
      if k <= pos {
        CoversAt(ring, k, u);
      } else if k > pos + 1 {
        CoversAt(ring, k - up, u);
      } else if !(bp <= u < bp + sz) {
        CoversAt(ring, pos + 1, u);
      }
    }
    if Covers(ring, u) {
      var k :| 0 <= k < |ring| && ring[k].addr <= u < ring[k].End();
      CoversAt(r, if k <= pos then k else k + up, u);
    }
    if bp <= u < bp + sz {
      CoversAt(r, pos + 1, u);
    }
  }

  lemma JoinedCovers(ring: seq<Block>, pos: nat, u: nat)
    requires pos + 1 < |ring|
    ensures Covers(Joined(ring, pos), u) <==> Covers(ring, u)
  {
    var r := Joined(ring, pos);
    var down := if ring[pos].End() == ring[pos + 1].addr then 1 else 0;
    if down == 1 {
      if Covers(r, u) {
        var k :| 0 <= k < |r| && r[k].addr <= u < r[k].End();
        CoversAt(ring, if k < pos || (k == pos && u < ring[pos].End()) then k else k + 1, u);
      }
      if Covers(ring, u) {
        var k :| 0 <= k < |ring| && ring[k].addr <= u < ring[k].End();
        CoversAt(r, if k <= pos then k else k - 1, u);
      }
    }
  }

  lemma InsertedCovers(ring: seq<Block>, pos: nat, bp: nat, sz: nat, u: nat)
    requires pos < |ring| && sz >= 1
    ensures Covers(Inserted(ring, pos, bp, sz), u) <==> Covers(ring, u) || bp <= u < bp + sz
  {
    hide Added, Joined, Covers;
    AddedCovers(ring, pos, bp, sz, u);
    JoinedCovers(Added(ring, pos, bp, sz), pos, u);
  }

  // ---- taking ----

  // malloc's choice: all of block k, or its last n units.
  function Taken(ring: seq<Block>, k: nat, n: nat): seq<Block>
    requires 0 < k < |ring| && n <= ring[k].size
  {
    if ring[k].size == n then ring[..k] + ring[k + 1..]
    else ring[k := Block(ring[k].addr, ring[k].size - n)]
  }

  lemma TakenSorted(ring: seq<Block>, k: nat, n: nat)
    requires Sorted(ring) && 0 < k < |ring| && 1 <= n <= ring[k].size
    ensures Sorted(Taken(ring, k, n)) && Taken(ring, k, n)[0] == ring[0]
  {
  }

  lemma TakenCovers(ring: seq<Block>, k: nat, n: nat, u: nat)
    requires Sorted(ring) && 0 < k < |ring| && 1 <= n <= ring[k].size
    ensures var a := ring[k].End() - n;
      Covers(Taken(ring, k, n), u) <==> Covers(ring, u) && !(a <= u < a + n)
  {
    if Covers(Taken(ring, k, n), u) {
      TakenWithin(ring, k, n, u);
    }
    if Covers(ring, u) && !(ring[k].End() - n <= u < ring[k].End()) {
      var j :| 0 <= j < |ring| && ring[j].addr <= u < ring[j].End();
      hide Covers;
      CoversAt(Taken(ring, k, n), if j > k && ring[k].size == n then j - 1 else j, u);
    }
  }

  lemma TakenWithin(ring: seq<Block>, k: nat, n: nat, u: nat)
    requires Sorted(ring) && 0 < k < |ring| && 1 <= n <= ring[k].size && Covers(Taken(ring, k, n), u)
    ensures Covers(ring, u) && !(ring[k].End() - n <= u < ring[k].End())
  {
    var r := Taken(ring, k, n);
    var j :| 0 <= j < |r| && r[j].addr <= u < r[j].End();
    var i := if j >= k && ring[k].size == n then j + 1 else j;
    CoversAt(ring, i, u);
    hide Covers;
    assert i < k ==> ring[i].End() < ring[k].addr;
    assert i > k ==> ring[k].End() < ring[i].addr;
  }

  // ---- allocated blocks ----

  lemma HoldsAt(alloc: map<nat, nat>, a: nat, u: nat)
    requires a in alloc && a <= u < a + alloc[a]
    ensures Holds(alloc, u)
  {
  }

  lemma ClearOf(alloc: map<nat, nat>, b: nat, a: nat, n: nat)
    requires b in alloc && alloc[b] >= 1 && n >= 1 && forall u :: a <= u < a + n ==> !Holds(alloc, u)
    ensures b + alloc[b] <= a || a + n <= b
  {
    hide Holds;
    var u := if a < b then b else a;
    if u < b + alloc[b] {
      HoldsAt(alloc, b, u);
    }
  }

  // Units a .. a + n - 1 that no allocated block holds can become one.
  lemma AddSeparate(alloc: map<nat, nat>, a: nat, n: nat)
    requires Separate(alloc) && n >= 1 && forall u :: a <= u < a + n ==> !Holds(alloc, u)
    ensures a !in alloc && Separate(alloc[a := n])
  {
    hide Holds;
    forall b | b in alloc ensures b + alloc[b] <= a || a + n <= b {
      ClearOf(alloc, b, a, n);
    }
  }

  lemma AddHolds(alloc: map<nat, nat>, a: nat, n: nat, u: nat)
    requires a !in alloc
    ensures Holds(alloc[a := n], u) <==> Holds(alloc, u) || a <= u < a + n
  {
    var alloc' := alloc[a := n];
    if Holds(alloc, u) {
      var x :| x in alloc && x <= u < x + alloc[x];
      HoldsAt(alloc', x, u);
    }
    if a <= u < a + n {
      HoldsAt(alloc', a, u);
    }
  }

  lemma DropHolds(alloc: map<nat, nat>, bp: nat, u: nat)
    requires bp in alloc && Separate(alloc)
    ensures Holds(alloc - {bp}, u) <==> Holds(alloc, u) && !(bp <= u < bp + alloc[bp])
  {
    var alloc' := alloc - {bp};
    if Holds(alloc', u) {
      var x :| x in alloc' && x <= u < x + alloc'[x];
      HoldsAt(alloc, x, u);
    }
    if Holds(alloc, u) && !(bp <= u < bp + alloc[bp]) {
      var x :| x in alloc && x <= u < x + alloc[x];
      HoldsAt(alloc', x, u);
    }
  }

  // ---- the operations keep the books ----

  // Units move between free and allocated.
  lemma PartitionMoves(ring: seq<Block>, alloc: map<nat, nat>, cores: seq<Block>,
                       ring': seq<Block>, alloc': map<nat, nat>, a: nat, n: nat, taken: bool)
    requires Partition(ring, alloc, cores)
    requires forall u :: a <= u < a + n ==> if taken then Covers(ring, u) else Holds(alloc, u)
    requires forall u: nat :: Covers(ring', u) <==> if a <= u < a + n then !taken else Covers(ring, u)
    requires forall u: nat :: Holds(alloc', u) <==> if a <= u < a + n then taken else Holds(alloc, u)
    ensures Partition(ring', alloc', cores)
  {
    hide Covers, Holds;
  }

  lemma TakeAccounted(ring: seq<Block>, alloc: map<nat, nat>, cores: seq<Block>, k: nat, n: nat)
    requires Sorted(ring) && Accounted(ring, alloc, cores) && 0 < k < |ring| && 1 <= n <= ring[k].size
    ensures var a := ring[k].End() - n;
      a !in alloc && Accounted(Taken(ring, k, n), alloc[a := n], cores)
  {
    var a := ring[k].End() - n;
    forall u | a <= u < a + n ensures Covers(ring, u) {
      CoversAt(ring, k, u);
    }
    hide Covers, Holds, Taken, Sorted, Separate;
    AddSeparate(alloc, a, n);
    hide Partition;
    forall u: nat ensures Holds(alloc[a := n], u) <==> if a <= u < a + n then true else Holds(alloc, u) {
      AddHolds(alloc, a, n, u);
    }
    forall u: nat ensures Covers(Taken(ring, k, n), u) <==> if a <= u < a + n then false else Covers(ring, u) {
      TakenCovers(ring, k, n, u);
    }
    PartitionMoves(ring, alloc, cores, Taken(ring, k, n), alloc[a := n], a, n, true);
  }

  lemma FreeAccounted(ring: seq<Block>, alloc: map<nat, nat>, cores: seq<Block>, bp: nat)
    requires Sorted(ring) && Accounted(ring, alloc, cores) && bp in alloc && ring[0].addr < bp
    ensures alloc[bp] >= 1 && Apart(ring, bp, alloc[bp])
    ensures Accounted(Inserted(ring, Pos(ring, bp), bp, alloc[bp]), alloc - {bp}, cores)
  {
    var sz := alloc[bp];
    var r := Inserted(ring, Pos(ring, bp), bp, sz);
    assert sz >= 1 && Separate(alloc - {bp});
    hide Inserted, Covers, Holds, Sorted, Pos, Separate;
    forall u | bp <= u < bp + sz ensures Holds(alloc, u) {
      HoldsAt(alloc, bp, u);
    }
    assert Apart(ring, bp, sz);
    hide Partition;
    forall u: nat ensures Covers(r, u) <==> if bp <= u < bp + sz then true else Covers(ring, u) {
      InsertedCovers(ring, Pos(ring, bp), bp, sz, u);
    }
    forall u: nat ensures Holds(alloc - {bp}, u) <==> if bp <= u < bp + sz then false else Holds(alloc, u) {
      DropHolds(alloc, bp, u);
    }
    PartitionMoves(ring, alloc, cores, r, alloc - {bp}, bp, sz, false);
  }

  // sbrk's memory counts as an allocated block until morecore frees it.
  lemma CoreAccounted(ring: seq<Block>, alloc: map<nat, nat>, cores: seq<Block>, p: nat, nu: nat)
    requires Accounted(ring, alloc, cores) && nu >= 1
    requires forall u :: p <= u < p + nu ==> !Covers(cores, u)
    ensures p !in alloc && Accounted(ring, alloc[p := nu], cores + [Block(p, nu)])
  {
    var cores' := cores + [Block(p, nu)];
    forall u: nat ensures Covers(cores', u) <==> Covers(cores, u) || p <= u < p + nu {
      CoreCovers(cores, p, nu, u);
    }
    hide Covers, Holds, Separate;
    AddSeparate(alloc, p, nu);
    forall u: nat ensures Holds(alloc[p := nu], u) <==> Holds(alloc, u) || p <= u < p + nu {
      AddHolds(alloc, p, nu, u);
    }
  }

  lemma CoreCovers(cores: seq<Block>, p: nat, nu: nat, u: nat)
    ensures Covers(cores + [Block(p, nu)], u) <==> Covers(cores, u) || p <= u < p + nu
  {
    var cores' := cores + [Block(p, nu)];
    if Covers(cores, u) {
      var k :| 0 <= k < |cores| && cores[k].addr <= u < cores[k].End();
      CoversAt(cores', k, u);
    }
    if p <= u < p + nu {
      CoversAt(cores', |cores|, u);
    }
  }
}
