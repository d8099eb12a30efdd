// Page allocation and page tables of xv6 (kalloc.c, vm.c) against a flat map from pages to frames.
module Vm {
  import opened Params
  import opened Blocks
  import opened PageTables
  import opened TableCount

  const PGSIZE: nat := 4096
  const KERNBASE: nat := 0x8000_0000

  type Page = seq<Byte>

  function Filled(n: nat, x: Byte): (s: seq<Byte>)
    ensures |s| == n && forall k :: 0 <= k < n ==> s[k] == x
  {
    if n == 0 then [] else Filled(n - 1, x) + [x]
  }

  function ZeroPage(): Page { Filled(PGSIZE, 0) }

  // PGROUNDUP and PGROUNDDOWN, as page numbers.
  function PageUp(x: nat): nat { (x + PGSIZE - 1) / PGSIZE }

  function PageDown(x: nat): nat { x / PGSIZE }

  // Byte a lies in page PageDown(a), and the pages below PageUp(x) are those of the bytes below x.
  lemma PagesOf(a: nat, x: nat)
    ensures PageDown(a) * 4096 <= a < PageDown(a) * 4096 + 4096
    ensures x <= PageUp(x) * 4096 < x + 4096
    ensures a < x ==> PageDown(a) < PageUp(x)
    ensures PageUp(x) <= PageDown(a) ==> x <= a
  {
  }

  // ---- frames ----

  ghost predicate FreeOk(free: seq<nat>, own: map<nat, Role>, leaked: set<nat>) {
    && (forall j, k :: 0 <= j < k < |free| ==> free[j] != free[k])
    && (forall f :: f in free ==> f !in own && f !in leaked)
    && (forall f :: f in leaked ==> f !in own)
    && 0 !in free && 0 !in own
  }

  ghost predicate DataOk(own: map<nat, Role>, data: map<nat, Page>) {
    forall f :: f in own && own[f].PageOf? ==> f in data
  }

  ghost function Frames(free: seq<nat>, own: map<nat, Role>, leaked: set<nat>): set<nat> {
    (set f | f in free) + own.Keys + leaked
  }

  // The maps of all directories, or of all but d, are the same.
  ghost predicate SameMaps(t0: Tables, t1: Tables, own: map<nat, Role>)
    requires Shape(t0) && Shape(t1)
  {
    forall e, q :: IsDir(own, e) && 0 <= q < PAGES ==> Flat(t1, e, q) == Flat(t0, e, q)
  }

  ghost predicate OtherMaps(t0: Tables, t1: Tables, own: map<nat, Role>, d: nat)
    requires Shape(t0) && Shape(t1)
  {
    forall e, q :: IsDir(own, e) && e != d && 0 <= q < PAGES ==> Flat(t1, e, q) == Flat(t0, e, q)
  }

  // Frames left the free list for directory d only; `held` ones became its pages.
  ghost predicate Took(own0: map<nat, Role>, own1: map<nat, Role>, free0: seq<nat>, free1: seq<nat>, d: nat, held: set<nat>) {
    && (forall f :: f in own0 ==> f in own1 && own1[f] == own0[f])
    && (forall f :: f in free1 ==> f in free0)
    && (forall f :: f in own1 && f !in own0 ==> Gained(own1[f], free0, d, held, f))
  }

  predicate Gained(r: Role, free0: seq<nat>, d: nat, held: set<nat>, f: nat) {
    (r.TableOf? && r.dir == d && f in free0) || (r.PageOf? && r.dir == d && f in held)
  }

  lemma TookRefl(own: map<nat, Role>, free: seq<nat>, d: nat, held: set<nat>)
    ensures Took(own, own, free, free, d, held)
  {
  }

  lemma TookTrans(own0: map<nat, Role>, own1: map<nat, Role>, own2: map<nat, Role>,
                  free0: seq<nat>, free1: seq<nat>, free2: seq<nat>, d: nat, h1: set<nat>, h2: set<nat>)
    requires Took(own0, own1, free0, free1, d, h1) && Took(own1, own2, free1, free2, d, h2)
    ensures Took(own0, own2, free0, free2, d, h1 + h2)
  {
    forall f | f in own2 && f !in own0 ensures Gained(own2[f], free0, d, h1 + h2, f) {
      if f in own1 {
        assert Gained(own1[f], free0, d, h1, f);
      } else {
        assert Gained(own2[f], free1, d, h2, f);
      }
    }
  }

  predicate TableHere(tables: Tables, d: nat, p: nat)
    requires Shape(tables) && p < PAGES
  {
    d in tables && tables[d][p / NPTENTRIES].Entry? && tables[d][p / NPTENTRIES].frame in tables
  }

  // A present directory entry leads to a table; without one no page is mapped there.
  lemma TableThere(tables: Tables, own: map<nat, Role>, d: nat, p: nat)
    requires Owned(tables, own) && IsDir(own, d) && p < PAGES
    ensures d in tables && (tables[d][p / NPTENTRIES].Entry? <==> TableHere(tables, d, p))
    ensures TableHere(tables, d, p) ==> Flat(tables, d, p) == tables[tables[d][p / NPTENTRIES].frame][p % NPTENTRIES]
    ensures !TableHere(tables, d, p) ==> Flat(tables, d, p) == Absent
  {
    assert PdeOk(tables, own, d, p / NPTENTRIES);
    if tables[d][p / NPTENTRIES].Entry? {
      assert RoleOk(tables, own, tables[d][p / NPTENTRIES].frame);
    }
  }

  // Page tables were made for directory d only, in its entries lo .. hi, and none went away.
  ghost predicate TablesAdded(t0: Tables, t1: Tables, own: map<nat, Role>, d: nat, lo: nat, hi: nat)
    requires Shape(t0) && Shape(t1)
  {
    forall e, q :: IsDir(own, e) && 0 <= q < PAGES ==>
      && (TableHere(t0, e, q) ==> TableHere(t1, e, q))
      && (TableHere(t1, e, q) ==> TableHere(t0, e, q) || (e == d && lo <= q / NPTENTRIES <= hi))
  }

  lemma AddedNone(t: Tables, own: map<nat, Role>, d: nat, lo: nat, hi: nat)
    requires Shape(t)
    ensures TablesAdded(t, t, own, d, lo, hi)
  {
  }

  lemma AddedTrans(t0: Tables, t1: Tables, t2: Tables, own0: map<nat, Role>, own1: map<nat, Role>, d: nat, lo: nat, hi: nat, i: nat)
    requires Shape(t0) && Shape(t1) && Shape(t2) && forall e :: IsDir(own0, e) ==> IsDir(own1, e)
    requires TablesAdded(t0, t1, own0, d, lo, hi) && TablesAdded(t1, t2, own1, d, i, i) && lo <= i <= hi
    ensures TablesAdded(t0, t2, own0, d, lo, hi)
  {
    hide TableHere;
  }

  lemma AddedOne(tables: Tables, own: map<nat, Role>, d: nat, i: nat, f: nat, perm: nat)
    requires Owned(tables, own) && IsDir(own, d) && d in tables && i < NPDENTRIES && tables[d][i].Absent? && f !in own
    requires Shape(WithTable(tables, d, i, f, perm))
    ensures TablesAdded(tables, WithTable(tables, d, i, f, perm), own, d, i, i)
  {
    var t := WithTable(tables, d, i, f, perm);
    forall e, q | IsDir(own, e) && 0 <= q < PAGES
      ensures TableHere(tables, e, q) ==> TableHere(t, e, q)
      ensures TableHere(t, e, q) ==> TableHere(tables, e, q) || (e == d && q / NPTENTRIES == i)
    {
      assert PdeOk(tables, own, e, q / NPTENTRIES);
      if e in tables && tables[e][q / NPTENTRIES].Entry? {
        assert RoleOk(tables, own, tables[e][q / NPTENTRIES].frame);
      }
    }
  }

  lemma AddedByPte(tables: Tables, own: map<nat, Role>, d: nat, p: nat, x: Pte, i: nat)
    requires Owned(tables, own) && IsDir(own, d) && d in tables && p < PAGES && tables[d][p / NPTENTRIES].Entry?
    requires tables[d][p / NPTENTRIES].frame in tables
    ensures Shape(WithPte(tables, d, p, x)) && TablesAdded(tables, WithPte(tables, d, p, x), own, d, i, i)
  {
    PteDirs(tables, own, d, p, x);
    hide WithPte, Flat;
    forall e | IsDir(own, e) ensures e in tables {
      assert PdeOk(tables, own, e, 0);
    }
  }

  // A page that is mapped has a table, and its neighbours in the entry have the same one.
  lemma HereAt(tables: Tables, own: map<nat, Role>, d: nat, p: nat)
    requires Owned(tables, own) && Shape(tables) && IsDir(own, d) && p < PAGES && Flat(tables, d, p).Entry?
    ensures forall q :: 0 <= q < PAGES && q / NPTENTRIES == p / NPTENTRIES ==> TableHere(tables, d, q)
  {
    TableThere(tables, own, d, p);
  }

  // The directory has exactly the user tables that its first n pages need.
  ghost predicate TablesFor(tables: Tables, d: nat, n: nat)
    requires Shape(tables)
  {
    forall q :: 0 <= q < UPAGES ==> (TableHere(tables, d, q) <==> q / NPTENTRIES * NPTENTRIES < n)
  }

  // Frames for n pages and their tables.
  function FramesFor(n: nat): nat { n + (n + NPTENTRIES - 1) / NPTENTRIES }

  lemma FramesForNext(i: nat)
    ensures FramesFor(i + 1) == FramesFor(i) + 1 + if i % NPTENTRIES == 0 then 1 else 0
    ensures i / NPTENTRIES * NPTENTRIES < i <==> i % NPTENTRIES != 0
  {
  }

  // The frame that is left over is lost exactly if it is the last one and the next page needs a table.
  lemma LastFrame(spare: nat, i: nat, n: nat)
    requires i < n && FramesFor(i) <= spare < FramesFor(i + 1)
    ensures spare < FramesFor(n)
    ensures spare == FramesFor(i) + 1 && i % NPTENTRIES == 0
       <==> spare % (NPTENTRIES + 1) == 1 && spare / (NPTENTRIES + 1) * NPTENTRIES < n
    ensures spare == FramesFor(i) + 1 && i % NPTENTRIES == 0 ==> spare / (NPTENTRIES + 1) * NPTENTRIES == i
  {
    hide FramesFor;
    FramesForNext(i);
    FramesForMore(i + 1, n);
    var k := spare / (NPTENTRIES + 1);
    FullTables(k);
    FullTables(i / NPTENTRIES);
    Remainder(i / NPTENTRIES);
    if spare % (NPTENTRIES + 1) == 1 {
      FramesForNext(NPTENTRIES * k);
      FramesForOrder(i, NPTENTRIES * k);
      FramesForOrder(NPTENTRIES * k, i);
      assert i == NPTENTRIES * k;
    }
  }

  lemma Remainder(k: nat)
    ensures ((NPTENTRIES + 1) * k + 1) % (NPTENTRIES + 1) == 1 && ((NPTENTRIES + 1) * k + 1) / (NPTENTRIES + 1) == k
  {
  }

  // k full tables.
  lemma FullTables(k: nat)
    ensures FramesFor(NPTENTRIES * k) == (NPTENTRIES + 1) * k
  {
  }

  lemma FramesForOrder(i: nat, j: nat)
    ensures i < j ==> FramesFor(i + 1) <= FramesFor(j)
  {
  }

  lemma FramesForMore(i: nat, n: nat)
    requires i <= n
    ensures FramesFor(i) + (n - i) <= FramesFor(n)
  {
  }

  lemma NoTablesYet(t: Tables, d: nat)
    requires Shape(t) && d in t && forall i :: 0 <= i < NPDENTRIES ==> t[d][i].Absent?
    ensures TablesFor(t, d, 0)
  {
  }

  // Tables for kernel pages are none of the user's.
  lemma TablesForKernel(t0: Tables, t1: Tables, own: map<nat, Role>, d: nat, lo: nat, hi: nat)
    requires Shape(t0) && Shape(t1) && IsDir(own, d) && TablesFor(t0, d, 0)
    requires TablesAdded(t0, t1, own, d, lo / NPTENTRIES, hi / NPTENTRIES) && lo >= UPAGES
    ensures TablesFor(t1, d, 0)
  {
    hide TableHere;
    forall q | 0 <= q < UPAGES ensures !TableHere(t1, d, q) {
      assert !TableHere(t0, d, q);
    }
  }

  lemma TablesForNext(t0: Tables, t1: Tables, own0: map<nat, Role>, own1: map<nat, Role>, d: nat, i: nat)
    requires Shape(t0) && Shape(t1) && IsDir(own0, d) && i < UPAGES && TablesFor(t0, d, i)
    requires TablesAdded(t0, t1, own0, d, i / NPTENTRIES, i / NPTENTRIES)
    requires Owned(t1, own1) && IsDir(own1, d) && Flat(t1, d, i).Entry?
    ensures TablesFor(t1, d, i + 1)
  {
    hide TableHere, Flat, Owned;
    HereAt(t1, own1, d, i);
    forall q | 0 <= q < UPAGES ensures TableHere(t1, d, q) <==> q / NPTENTRIES * NPTENTRIES < i + 1 {
      assert TableHere(t0, d, q) <==> q / NPTENTRIES * NPTENTRIES < i;
      if q / NPTENTRIES * NPTENTRIES == i {
        assert q / NPTENTRIES == i / NPTENTRIES;
      } else if q / NPTENTRIES == i / NPTENTRIES {
        assert q / NPTENTRIES * NPTENTRIES < i + 1;
      }
    }
  }

  lemma DirsKept(own0: map<nat, Role>, own1: map<nat, Role>, free0: seq<nat>, free1: seq<nat>, d: nat, held: set<nat>)
    requires Took(own0, own1, free0, free1, d, held)
    ensures forall e :: IsDir(own0, e) ==> IsDir(own1, e)
  {
  }

  lemma NotATable(tables: Tables, own: map<nat, Role>, f: nat)
    requires Owned(tables, own) && f !in own
    ensures f !in tables
  {
  }

  lemma ShapeOf(tables: Tables, own: map<nat, Role>)
    requires Owned(tables, own)
    ensures Shape(tables)
  {
  }

  lemma FreeHead(free: seq<nat>, own: map<nat, Role>, leaked: set<nat>)
    requires FreeOk(free, own, leaked) && free != []
    ensures free[0] != 0 && free[0] !in own && free[0] !in leaked && free[0] !in free[1..] && FreeOk(free[1..], own, leaked)
    ensures forall f :: f in free <==> f == free[0] || f in free[1..]
  {
    assert free == [free[0]] + free[1..];
  }

  lemma FreeMore(free: seq<nat>, own: map<nat, Role>, leaked: set<nat>, f: nat)
    requires FreeOk(free, own, leaked) && f !in free && f !in own && f !in leaked && f != 0
    ensures FreeOk([f] + free, own, leaked)
  {
  }

  lemma FreeOwn(free: seq<nat>, own: map<nat, Role>, own': map<nat, Role>, leaked: set<nat>)
    requires FreeOk(free, own, leaked) && forall f :: f in own' ==> f in own || (f !in free && f !in leaked && f != 0)
    ensures FreeOk(free, own', leaked)
  {
  }

  class Vm {
    var freelist: seq<nat>         // kmem.freelist
    var tables: Tables             // the pages in use as directories and tables
    var data: map<nat, Page>       // what the other pages hold
    ghost var own: map<nat, Role>
    ghost var leaked: set<nat>     // frames nobody can reach any more

    // kinit: all frames are free.
    constructor (frames: seq<nat>)
      requires 0 !in frames && forall j, k :: 0 <= j < k < |frames| ==> frames[j] != frames[k]
      ensures Valid() && freelist == frames && tables == map[] && own == map[] && leaked == {}
    {
      freelist, tables, data := frames, map[], map[];
      own, leaked := map[], {};
    }

    ghost predicate Valid()
      reads this
    {
      Owned(tables, own) && Shape(tables) && FreeOk(freelist, own, leaked) && DataOk(own, data)
    }

    ghost function AllFrames(): set<nat>
      reads this
    {
      Frames(freelist, own, leaked)
    }

    // A frame taken from the free list and not put to use yet.
    ghost predicate Held(f: nat)
      reads this
    {
      f != 0 && f !in freelist && f !in own && f !in leaked
    }

    method Kalloc() returns (r: Option<nat>)
      requires Valid()
      modifies this`freelist
      ensures Valid() && (r.None? <==> old(freelist) == [])
      ensures r.None? ==> freelist == old(freelist)
      ensures r.Some? ==> freelist == old(freelist)[1..] && r.value == old(freelist)[0] && Held(r.value)
      ensures r.Some? ==> AllFrames() == old(AllFrames()) - {r.value} && forall f :: f in freelist ==> f in old(freelist)
    {
      hide Owned, FreeOk, DataOk;
      if freelist == [] {
        return None;
      }
      FreeHead(freelist, own, leaked);
      r := Some(freelist[0]);
      freelist := freelist[1..];
    }

    method Kfree(f: nat)
      requires FreeOk(freelist, own, leaked) && Held(f)
      modifies this`freelist, this`data
      ensures FreeOk(freelist, own, leaked) && freelist == [f] + old(freelist) && AllFrames() == old(AllFrames()) + {f}
      ensures data == old(data)[f := Filled(PGSIZE, 1)]
    {
      hide FreeOk;
      FreeMore(freelist, own, leaked, f);
      data := data[f := Filled(PGSIZE, 1)];
      freelist := [f] + freelist;
    }

    // walkpgdir: is there a table for page p, made if alloc is set and memory lasts?
    method Walkpgdir(d: nat, p: nat, alloc: bool) returns (ok: bool)
      requires Valid() && IsDir(own, d) && p < PAGES
      modifies this`freelist, this`tables, this`own
      ensures Valid() && SameMaps(old(tables), tables, old(own)) && AllFrames() == old(AllFrames())
      ensures ok <==> TableHere(tables, d, p)
      ensures Took(old(own), own, old(freelist), freelist, d, {})
      ensures !alloc ==> tables == old(tables) && freelist == old(freelist) && own == old(own)
      ensures alloc ==> (ok <==> TableHere(old(tables), d, p) || old(freelist) != [])
      ensures alloc && !ok ==> freelist == []
      ensures |old(freelist)| == |freelist| + if ok && !TableHere(old(tables), d, p) then 1 else 0
      ensures TablesAdded(old(tables), tables, old(own), d, p / NPTENTRIES, p / NPTENTRIES)
      ensures Bought(old(freelist), freelist, old(tables), tables, d, p, if ok then 1 else 0)
      ensures !ok ==> Lacks(tables, d, p / NPTENTRIES)
    {
      hide Owned, FreeOk, DataOk, TableHere, Flat, TablesAdded, Bought, Lacks;
      TableThere(tables, own, d, p);
      TookRefl(own, freelist, d, {});
      AddedNone(tables, own, d, p / NPTENTRIES, p / NPTENTRIES);
      if tables[d][p / NPTENTRIES].Entry? {
        BoughtHere(freelist, tables, d, p);
        return true;
      }
      BoughtNone(freelist, tables, d, p);
      LacksHere(tables, d, p);
      if !alloc {
        return false;
      }
      var mem := Kalloc();
      if mem.None? {
        return false;
      }
      AddTable(tables, own, d, p / NPTENTRIES, mem.value, PTE_W + PTE_U);
      NotATable(tables, own, mem.value);
      BoughtTable(old(freelist), tables, d, p, mem.value, PTE_W + PTE_U);
      ShapeOf(WithTable(tables, d, p / NPTENTRIES, mem.value, PTE_W + PTE_U), own[mem.value := TableOf(d, p / NPTENTRIES)]);
      AddedOne(tables, own, d, p / NPTENTRIES, mem.value, PTE_W + PTE_U);
      tables := WithTable(tables, d, p / NPTENTRIES, mem.value, PTE_W + PTE_U);
      own := own[mem.value := TableOf(d, p / NPTENTRIES)];
      FreeOwn(freelist, old(own), own, leaked);
      DataSame(old(own), own, data);
      ShapeOf(tables, own);
      TableThere(tables, own, d, p);
      ok := true;
    }

    // One turn of mappages: the entry of page p is set.
    method MapOne(d: nat, p: nat, frame: nat, perm: nat) returns (r: Result<int>)
      requires Valid() && IsDir(own, d) && p < PAGES && (p < UPAGES ==> Held(frame) && frame in data)
      modifies this`freelist, this`tables, this`own
      ensures Valid() && IsDir(own, d) && (r.Panic? || r == Ok(0) || r == Ok(-1))
      ensures Took(old(own), own, old(freelist), freelist, d, if p < UPAGES then {frame} else {})
      ensures r.Panic? ==> Flat(old(tables), d, p).Entry?
      ensures r == Ok(-1) ==> freelist == []
      ensures r == Ok(-1) <==> !TableHere(old(tables), d, p) && old(freelist) == []
      ensures r != Ok(0) ==> SameMaps(old(tables), tables, old(own)) && AllFrames() == old(AllFrames()) && (p < UPAGES ==> Held(frame))
      ensures r == Ok(0) ==>
                && Flat(old(tables), d, p).Absent?
                && Mapped(old(tables), tables, old(own), d, p, 1, frame, perm)
                && AllFrames() == old(AllFrames()) + (if p < UPAGES then {frame} else {})
                && (p < UPAGES ==> frame in own && own[frame] == PageOf(d, p))
      ensures r == Ok(0) ==> |old(freelist)| == |freelist| + if TableHere(old(tables), d, p) then 0 else 1
      ensures TablesAdded(old(tables), tables, old(own), d, p / NPTENTRIES, p / NPTENTRIES)
      ensures Bought(old(freelist), freelist, old(tables), tables, d, p, if r == Ok(-1) then 0 else 1)
      ensures r == Ok(-1) ==> Lacks(tables, d, p / NPTENTRIES)
    {
      hide Owned, FreeOk, DataOk, TableHere, Flat, Mapped, SameMaps, WithPte, Took, TablesAdded, Bought, Lacks;
      ghost var own0, tables0 := own, tables;
      var ok := Walkpgdir(d, p, true);
      StillDir(own0, own, old(freelist), freelist, d, {});
      TookMore(own0, own, old(freelist), freelist, d, {}, if p < UPAGES then {frame} else {});
      if !ok {
        HeldStill(own0, own, old(freelist), freelist, d, leaked, frame);
        return Ok(-1);
      }
      FlatSameAt(tables0, tables, own0, d, p);
      TableThere(tables, own, d, p);
      HereMeans(tables, d, p);
      HeldStill(own0, own, old(freelist), freelist, d, leaked, frame);
      if tables[tables[d][p / NPTENTRIES].frame][p % NPTENTRIES].Entry? {
        return Panic("remap");
      }
      ghost var own1, tables1 := own, tables;
      PteDirs(tables, own, d, p, Entry(frame, perm));
      BoughtSame(old(freelist), freelist, tables0, tables, WithPte(tables, d, p, Entry(frame, perm)), d, p, 1);
      MappedOne(tables0, tables1, own0, own1, d, p, frame, perm);
      AddedByPte(tables, own, d, p, Entry(frame, perm), p / NPTENTRIES);
      DirsKept(own0, own1, old(freelist), freelist, d, {});
      AddedTrans(tables0, tables1, WithPte(tables, d, p, Entry(frame, perm)), own0, own1, d, p / NPTENTRIES, p / NPTENTRIES, p / NPTENTRIES);
      if p < UPAGES {
        AddPage(tables, own, d, p, frame, perm);
        TookPage(own0, own1, old(freelist), freelist, d, frame, p);
        own := own[frame := PageOf(d, p)];
        FreeOwn(freelist, own1, own, leaked);
        DataSame(own1, own, data);
      } else {
        AddKernelPage(tables, own, d, p, Entry(frame, perm));
      }
      tables := WithPte(tables, d, p, Entry(frame, perm));
      ShapeOf(tables, own);
      r := Ok(0);
    }

    // mappages for pages first .. last; m counts the pages mapped.
    method Mappages(d: nat, va: nat, size: nat, pa: nat, perm: nat) returns (r: Result<int>, ghost m: nat)
      requires Valid() && IsDir(own, d) && size > 0 && va + size <= TWO32 && pa % PGSIZE == 0
      requires forall f :: f in UserFrames(PageDown(va), PageDown(va + size - 1) - PageDown(va) + 1, pa / PGSIZE) ==> Held(f) && f in data
      modifies this`freelist, this`tables, this`own
      ensures Valid() && IsDir(own, d) && (r.Panic? || r == Ok(0) || r == Ok(-1))
      ensures var n := PageDown(va + size - 1) - PageDown(va) + 1;
        m <= n && (r == Ok(0) <==> m == n) && (r.Panic? ==> Flat(old(tables), d, PageDown(va) + m).Entry?)
      ensures r == Ok(-1) ==> freelist == []
      ensures PageDown(va) == PageDown(va + size - 1) ==>
                (r == Ok(-1) <==> !TableHere(old(tables), d, PageDown(va)) && old(freelist) == [])
      ensures Mapped(old(tables), tables, old(own), d, PageDown(va), m, pa / PGSIZE, perm)
      ensures Took(old(own), own, old(freelist), freelist, d, UserFrames(PageDown(va), m, pa / PGSIZE))
      ensures AllFrames() == old(AllFrames()) + UserFrames(PageDown(va), m, pa / PGSIZE)
      ensures forall f :: f !in UserFrames(PageDown(va), m, pa / PGSIZE) && old(Held(f)) ==> Held(f)
      ensures TablesAdded(old(tables), tables, old(own), d, PageDown(va) / NPTENTRIES, PageDown(va + size - 1) / NPTENTRIES)
      ensures PageDown(va) == PageDown(va + size - 1) && r == Ok(0) ==>
                |old(freelist)| == |freelist| + if TableHere(old(tables), d, PageDown(va)) then 0 else 1
      ensures Bought(old(freelist), freelist, old(tables), tables, d, PageDown(va), if r.Panic? then m + 1 else m)
      ensures r == Ok(-1) ==> Lacks(tables, d, (PageDown(va) + m) / NPTENTRIES)
    {
      hide Owned, FreeOk, DataOk, TableHere, Flat, Mapped, SameMaps, Took, UserFrames, Frames, TablesAdded, Bought, Lacks;
      ghost var own0, tables0, free0 := own, tables, freelist;
      var a, last, frame := PageDown(va), PageDown(va + size - 1), pa / PGSIZE;
      ghost var first, f0 := a, frame;
      m := 0;
      MappedNone(tables, own, d, a, frame, perm);
      TookRefl(own, freelist, d, {});
      NoFrames(a, frame);
      AddedNone(tables, own, d, a / NPTENTRIES, last / NPTENTRIES);
      BoughtNone(freelist, tables, d, a);
      while true
        invariant a == first + m && frame == f0 + m && a <= last && last < PAGES
        invariant m == 0 ==> tables == tables0 && freelist == free0
        invariant Valid() && IsDir(own, d)
        invariant Mapped(tables0, tables, own0, d, first, m, f0, perm)
        invariant TablesAdded(tables0, tables, own0, d, first / NPTENTRIES, last / NPTENTRIES)
        invariant Bought(free0, freelist, tables0, tables, d, first, m)
        invariant Took(own0, own, free0, freelist, d, UserFrames(first, m, f0))
        invariant AllFrames() == old(AllFrames()) + UserFrames(first, m, f0)
        invariant forall f :: f !in UserFrames(first, m, f0) && old(Held(f)) ==> Held(f)
        decreases last - a
      {
        FrameNext(first, m, f0);
        FramesUpTo(first, m + 1, last - first + 1, f0);
        MappedAt(tables0, tables, own0, d, first, m, f0, perm, a);
        ghost var own1, tables1, free1 := own, tables, freelist;
        r := MapOne(d, a, frame, perm);
        BoughtMore(free0, free1, freelist, tables0, tables1, tables, d, first, m, if r == Ok(-1) then 0 else 1);
        DirsKept(own0, own1, free0, free1, d, UserFrames(first, m, f0));
        AddedTrans(tables0, tables1, tables, own0, own1, d, first / NPTENTRIES, last / NPTENTRIES, a / NPTENTRIES);
        if r != Ok(0) {
          MappedSame(tables0, tables1, tables, own0, own1, d, first, m, f0, perm, free0, free1);
          TookTrans(own0, own1, own, free0, free1, freelist, d, UserFrames(first, m, f0), if a < UPAGES then {frame} else {});
          TookNarrow(own0, own1, own, free0, free1, freelist, d, UserFrames(first, m, f0), a, frame);
          HeldKept(own1, own, free1, freelist, d, if a < UPAGES then {frame} else {});
          return;
        }
        MappedMore(tables0, tables1, tables, own0, own1, d, first, m, f0, perm, free0, free1);
        TookTrans(own0, own1, own, free0, free1, freelist, d, UserFrames(first, m, f0), if a < UPAGES then {frame} else {});
        HeldKept(own1, own, free1, freelist, d, if a < UPAGES then {frame} else {});
        m := m + 1;
        if a == last {
          break;
        }
        a, frame := a + 1, frame + 1;
      }
      r := Ok(0);
    }

    // mappages for one page: the fresh frame f becomes page p of directory d, unless its table is missing and
    // no frame is left for it.
    method MapFresh(d: nat, p: nat, f: nat, perm: nat) returns (ok: bool)
      requires Valid() && IsDir(own, d) && p < UPAGES && Held(f) && f in data && Flat(tables, d, p).Absent?
      modifies this`freelist, this`tables, this`own
      ensures Valid() && IsDir(own, d) && AllFrames() == old(AllFrames()) + (if ok then {f} else {})
      ensures Mapped(old(tables), tables, old(own), d, p, if ok then 1 else 0, f, perm)
      ensures Took(old(own), own, old(freelist), freelist, d, if ok then {f} else {})
      ensures ok <==> TableHere(old(tables), d, p) || old(freelist) != []
      ensures ok ==> |old(freelist)| == |freelist| + if TableHere(old(tables), d, p) then 0 else 1
      ensures !ok ==> Held(f) && freelist == [] && Lacks(tables, d, p / NPTENTRIES)
      ensures Bought(old(freelist), freelist, old(tables), tables, d, p, if ok then 1 else 0)
      ensures TablesAdded(old(tables), tables, old(own), d, p / NPTENTRIES, p / NPTENTRIES)
    {
      hide Owned, FreeOk, DataOk, Flat, Mapped, Took, UserFrames, Frames, TableHere, TablesAdded, Bought, Lacks, Shape;
      OneFrame(p, f);
      ghost var m;
      var r;
      r, m := Mappages(d, p * PGSIZE, PGSIZE, f * PGSIZE, perm);
      MappedAbsent(old(tables), d, p, r, m);
      ok := r == Ok(0);
    }

    // One turn of deallocuvm's loop at a page whose table is there: a page that is there is unmapped and freed
    method FreePage(d: nat, p: nat) returns (r: Result<()>)
      requires Valid() && IsDir(own, d) && p < UPAGES && TableHere(tables, d, p)
      modifies this`freelist, this`tables, this`data, this`own
      ensures r.Ok? && Valid() && IsDir(own, d) && AllFrames() == old(AllFrames())
      ensures Unmapped(old(tables), tables, old(own), d, p, p + 1)
      ensures Without(old(own), own, d, p, p + 1) && own.Keys <= old(own).Keys
      ensures forall f :: f in own && f in old(data) ==> f in data && data[f] == old(data)[f]
      ensures forall f :: f in old(freelist) ==> f in freelist
      ensures leaked == old(leaked)
    {
      hide Owned, FreeOk, DataOk, TableHere, Flat, Unmapped, Without;
      TableThere(tables, own, d, p);
      HereMeans(tables, d, p);
      var x := tables[tables[d][p / NPTENTRIES].frame][p % NPTENTRIES];
      if x.Absent? {
        UnmappedAlready(tables, own, d, p);
        return Ok(());
      }
      DropPage(tables, own, d, p);
      PteDirs(tables, own, d, p, Absent);
      UnmappedOne(tables, own, d, p);
      WithoutOne(tables, own, d, p, x.frame);
      FreeOwnLess(freelist, own, leaked, x.frame);
      if x.frame == 0 {
        return Panic("kfree");
      }
      own := own - {x.frame};
      Kfree(x.frame);
      tables := WithPte(tables, d, p, Absent);
      ShapeOf(tables, own);
      DataLess(old(own), own, old(data), data);
      r := Ok(());
    }

    // deallocuvm: addresses without a page table are skipped 4 MB at a time.
    method Deallocuvm(d: nat, oldsz: nat, newsz: nat) returns (r: nat)
      requires Valid() && IsDir(own, d) && oldsz <= KERNBASE
      modifies this`freelist, this`tables, this`data, this`own
      ensures r == if newsz >= oldsz then oldsz else newsz
      ensures Valid() && IsDir(own, d) && AllFrames() == old(AllFrames()) && leaked == old(leaked)
      ensures Unmapped(old(tables), tables, old(own), d, PageUp(newsz), PageUp(oldsz))
      ensures Without(old(own), own, d, PageUp(newsz), PageUp(oldsz))
      ensures forall f :: f in own && f in old(data) ==> f in data && data[f] == old(data)[f]
      ensures forall f :: f in old(freelist) ==> f in freelist
    {
      hide Owned, FreeOk, DataOk, TableHere, Flat, Unmapped, Without, Frames;
      ghost var own0, t0 := own, tables;
      if newsz >= oldsz {
        UnmappedEmpty(tables, own, d, PageUp(newsz), PageUp(oldsz));
        return oldsz;
      }
      var a := PageUp(newsz);
      ghost var lo, hi := a, PageUp(oldsz);
      UnmappedEmpty(tables, own, d, lo, a);
      UnmappedEmpty(tables, own, d, hi, a);
      while a * PGSIZE < oldsz
        invariant lo <= a && Valid() && IsDir(own, d) && AllFrames() == old(AllFrames()) && leaked == old(leaked)
        invariant Unmapped(t0, tables, own0, d, lo, a) && Without(own0, own, d, lo, a)
        invariant Unmapped(t0, t0, own0, d, hi, a)
        invariant forall f :: f in own && f in old(data) ==> f in data && data[f] == old(data)[f]
        invariant forall f :: f in old(freelist) ==> f in freelist
        decreases oldsz - a * PGSIZE
      {
        ghost var own1, t1 := own, tables;
        InUserHalf(a, oldsz);
        TableThere(tables, own, d, a);
        var ok := Walkpgdir(d, a, false);
        if !ok {
          // on to the next directory entry
          SkipTable(t0, tables, own0, own, d, lo, hi, a);
          a := (a / NPTENTRIES + 1) * NPTENTRIES - 1;
        } else {
          var p := FreePage(d, a);
          UnmappedMore(t0, t1, tables, own0, own1, own, d, lo, a);
          UnmappedEmpty(t0, own0, d, hi, a + 1);
        }
        a := a + 1;
      }
      UnmappedCut(t0, tables, own0, own, d, lo, hi, a);
      r := newsz;
    }

    // One turn of allocuvm's loop.  If the page cannot be mapped, mem is what kalloc gave, if anything.
    method GrowOne(d: nat, a: nat) returns (ok: bool, mem: Option<nat>)
      requires Valid() && IsDir(own, d) && a < UPAGES && Flat(tables, d, a).Absent?
      modifies this`freelist, this`tables, this`data, this`own
      ensures Valid() && IsDir(own, d)
      ensures forall f :: f in old(own) && f in old(data) ==> f in data && data[f] == old(data)[f]
      ensures Took(old(own), own, old(freelist), freelist, d, ToSet(old(freelist)))
      ensures ok ==> GrownMap(old(tables), tables, old(own), old(freelist), data, d, a, a + 1) && AllFrames() == old(AllFrames())
      ensures !ok ==> SameMaps(old(tables), tables, old(own))
      ensures !ok ==> AllFrames() == old(AllFrames()) - (if mem.Some? then {mem.value} else {})
      ensures !ok && mem.Some? ==> Held(mem.value) && mem.value in old(freelist)
      ensures ok ==> old(freelist) != [] && Bought(old(freelist)[1..], freelist, old(tables), tables, d, a, 1)
      ensures !ok ==> old(freelist) == [] || (|old(freelist)| == 1 && Lacks(old(tables), d, a / NPTENTRIES))
    {
      hide Owned, FreeOk, DataOk, Flat, Mapped, SameMaps, GrownMap, Took, UserFrames, Bought, Lacks, TablesAdded, TableHere;
      ghost var own0, t0, free0 := own, tables, freelist;
      TookRefl(own, freelist, d, ToSet(freelist));
      SameMapsRefl(tables, own);
      mem := Kalloc();
      if mem.None? {
        return false, None;
      }
      data := data[mem.value := ZeroPage()];
      DataMore(own, old(data), data);
      ok := MapFresh(d, a, mem.value, PTE_W + PTE_U);
      TookTail(own0, own, free0, freelist, d, if ok then {mem.value} else {});
      OneMapped(t0, tables, own0, d, a, if ok then 1 else 0, mem.value, free0, data);
      if !ok {
        BoughtNothing(free0[1..], freelist, t0, tables, d, a, a / NPTENTRIES);
        return false, mem;
      }
      ok := true;
    }

    // allocuvm's way out: what was added is removed again, and the spare frame freed.
    method Undo(d: nat, newsz: nat, oldsz: nat, mem: Option<nat>)
      requires Valid() && IsDir(own, d) && newsz <= KERNBASE && (mem.Some? ==> Held(mem.value))
      modifies this`freelist, this`tables, this`data, this`own
      ensures Valid() && IsDir(own, d)
      ensures AllFrames() == old(AllFrames()) + (if mem.Some? then {mem.value} else {})
      ensures Unmapped(old(tables), tables, old(own), d, PageUp(oldsz), PageUp(newsz))
      ensures Without(old(own), own, d, PageUp(oldsz), PageUp(newsz))
      ensures forall f :: f in own && f in old(data) ==> f in data && data[f] == old(data)[f]
    {
      hide Owned, FreeOk, DataOk, Flat, Unmapped, Without;
      var x := Deallocuvm(d, newsz, oldsz);
      if mem.Some? {
        NotHeldTwice(mem.value, freelist, own, leaked);
        ghost var data1 := data;
        Kfree(mem.value);
        DataMore(own, data1, data);
      }
    }

    // allocuvm
    method Allocuvm(d: nat, oldsz: nat, newsz: nat) returns (r: nat)
      requires Valid() && IsDir(own, d) && NoneMapped(tables, d, PageUp(oldsz), PageUp(newsz))
      modifies this`freelist, this`tables, this`data, this`own
      ensures Valid() && IsDir(own, d) && AllFrames() == old(AllFrames())
      ensures forall f :: f in old(own) && f in old(data) ==> f in data && data[f] == old(data)[f]
      ensures newsz >= KERNBASE ==> r == 0 && tables == old(tables) && freelist == old(freelist)
      ensures newsz < oldsz && newsz < KERNBASE ==> r == oldsz && tables == old(tables) && freelist == old(freelist)
      ensures oldsz <= newsz < KERNBASE ==> r == newsz || r == 0
      ensures oldsz <= newsz < KERNBASE && r == newsz > 0 ==>
                GrownMap(old(tables), tables, old(own), old(freelist), data, d, PageUp(oldsz), PageUp(newsz))
      ensures oldsz <= newsz < KERNBASE && r == 0 ==> SameMaps(old(tables), tables, old(own))
      ensures 0 < newsz && oldsz <= newsz < KERNBASE ==>
                var need := Needs(old(tables), d, PageUp(oldsz), PageUp(newsz) - PageUp(oldsz));
                (r == newsz <==> |old(freelist)| >= need) && (r == newsz ==> |old(freelist)| == |freelist| + need)
      ensures oldsz <= newsz < KERNBASE && r == newsz > 0 ==>
                forall q :: PageUp(oldsz) <= q < PageUp(newsz) ==> q < PAGES && Allows(tables, d, q, PTE_U) && Allows(tables, d, q, PTE_W)
    {
      hide Owned, FreeOk, DataOk, Flat, Mapped, SameMaps, GrownMap, Took, UserFrames, NoneMapped, Unmapped, Without;
      hide Bought, Lacks, Spent, Needs;
      if newsz >= KERNBASE {
        return 0;
      }
      if newsz < oldsz {
        return oldsz;
      }
      ghost var own0, t0, free0 := own, tables, freelist;
      var a := PageUp(oldsz);
      ghost var lo, hi := a, PageUp(newsz);
      GrownNone(tables, own, freelist, data, d, a);
      TookRefl(own, freelist, d, ToSet(free0));
      SpentNone(freelist, tables, d, lo);
      while a * PGSIZE < newsz
        invariant lo <= a && Valid() && IsDir(own, d) && AllFrames() == old(AllFrames())
        invariant forall f :: f in own0 && f in old(data) ==> f in data && data[f] == old(data)[f]
        invariant GrownMap(t0, tables, own0, free0, data, d, lo, a) && a <= (if lo < hi then hi else lo)
        invariant Took(own0, own, free0, freelist, d, ToSet(free0)) && Spent(free0, freelist, t0, tables, d, lo, a - lo)
        decreases newsz - a * PGSIZE
      {
        ghost var own1, t1, free1, data1 := own, tables, freelist, data;
        InUserHalf(a, newsz);
        StillDir(own0, own1, free0, free1, d, ToSet(free0));
        GrownAbsent(t0, tables, own0, free0, data, d, lo, hi, a);
        var ok, mem := GrowOne(d, a);
        TookSub(own0, own1, own, free0, free1, freelist, d);
        if !ok {
          SpentOut(free0, free1, t0, t1, d, lo, a - lo, hi - lo);
          ghost var t2, own2 := tables, own;
          Undo(d, newsz, oldsz, mem);
          GrownUndone(t0, t1, t2, tables, own0, own1, own2, free0, data1, d, lo, hi, a);
          OwnBack(t0, own0, own2, own, d, lo, hi);
          return 0;
        }
        GrownMore(t0, t1, tables, own0, own1, own, free0, free1, data1, data, d, lo, a);
        SpentMore(free0, free1, freelist, t0, t1, tables, d, lo, a - lo);
        a := a + 1;
      }
      SpentAll(free0, freelist, t0, tables, d, lo, a - lo);
      GrownAccess(t0, tables, own0, own, free0, data, d, lo, hi);
      r := newsz;
      if newsz == 0 {
        GrownIsSame(t0, tables, own0, free0, data, d, lo, a);
      }
    }

    // The page at f goes back to the free list.
    method Release(f: nat)
      requires FreeOk(freelist, own, leaked) && DataOk(own, data) && f in own
      modifies this`freelist, this`data, this`own
      ensures FreeOk(freelist, own, leaked) && DataOk(own, data) && own == old(own) - {f}
      ensures AllFrames() == old(AllFrames())
      ensures forall g :: g in own && g in old(data) ==> g in data && data[g] == old(data)[g]
      ensures freelist == [f] + old(freelist)
    {
      hide FreeOk, DataOk;
      ghost var own1, data1 := own, data;
      FreeOwnLess(freelist, own, leaked, f);
      own := own - {f};
      Kfree(f);
      DataLess(own1, own, data1, data);
    }

    // The table of entry i is freed.
    method FreeTable(d: nat, i: nat)
      requires FreeOk(freelist, own, leaked) && DataOk(own, data)
      requires d in tables && i < |tables[d]| && tables[d][i].Entry? && tables[d][i].frame in own
      modifies this`freelist, this`data, this`own, this`tables
      ensures FreeOk(freelist, own, leaked) && DataOk(own, data)
      ensures var f := old(tables)[d][i].frame; own == old(own) - {f} && tables == old(tables) - {f}
      ensures AllFrames() == old(AllFrames())
      ensures forall g :: g in own && g in old(data) ==> g in data && data[g] == old(data)[g]
      ensures forall g :: g in old(freelist) ==> g in freelist
    {
      hide FreeOk, DataOk, Frames;
      var f := tables[d][i].frame;
      Release(f);
      tables := tables - {f};
    }

    // freevm's loop over the directory: every page table is given back.  The directory keeps its stale
    // entries; view is the directory without them.
    method FreeTables(d: nat, ghost own0: map<nat, Role>, ghost t0: Tables)
      requires Valid() && IsDir(own, d) && NoUserPages(tables, d)
      requires Left(own0, own, d) && IsDir(own0, d) && Shape(t0) && OtherMaps(t0, tables, own0, d)
      modifies this`freelist, this`tables, this`data, this`own
      ensures FreeOk(freelist, own, leaked) && IsDir(own, d) && DataOk(own, data) && AllFrames() == old(AllFrames())
      ensures Owned(tables - {d}, own - {d}) && OtherMaps(t0, tables - {d}, own0, d)
      ensures Left(own0, own, d) && own.Keys <= old(own).Keys && forall f :: f in own && f != d ==> !Belongs(own[f], d)
      ensures forall f :: f in own && f in old(data) ==> f in data && data[f] == old(data)[f]
      ensures forall f :: f in old(freelist) ==> f in freelist
    {
      hide Owned, FreeOk, DataOk, Flat, NoUserPages, OtherMaps, Left, Belongs, Frames;
      ghost var view: Tables := tables;
      ViewStart(tables, own, d);
      hide View;
      var i := 0;
      while i < NPDENTRIES
        invariant 0 <= i <= NPDENTRIES && FreeOk(freelist, own, leaked) && IsDir(own, d) && DataOk(own, data)
        invariant AllFrames() == old(AllFrames())
        invariant Owned(view, own) && Shape(view) && NoUserPages(view, d) && OtherMaps(t0, view, own0, d) && Left(own0, own, d)
        invariant View(tables, view, d, i)
        invariant forall f :: f in own && f in old(data) ==> f in data && data[f] == old(data)[f]
        invariant own.Keys <= old(own).Keys
        invariant forall f :: f in old(freelist) ==> f in freelist
      {
        ViewAt(tables, view, d, i);
        DropTable(view, own, d, i);
        if tables[d][i].Entry? {
          LeftTable(t0, view, own0, own, d, i);
          ViewTable(tables, view, d, i);
          FreeTable(d, i);
          view := WithoutTable(view, d, i);
          ShapeOf(view, own);
        }
        i := i + 1;
      }
      ViewEnd(tables, view, d);
      DropDir(view, own, d);
      LeftDir(t0, view, own0, own, d);
    }

    // freevm: each user page, each page table and the directory go back to the free list.
    method Freevm(d: nat)
      requires Valid() && IsDir(own, d)
      modifies this`freelist, this`tables, this`data, this`own
      ensures Valid() && AllFrames() == old(AllFrames())
      ensures forall f :: f in own <==> f in old(own) && f != d && !Belongs(old(own)[f], d)
      ensures forall f :: f in own ==> own[f] == old(own)[f]
      ensures forall f :: f in old(own) && (f == d || Belongs(old(own)[f], d)) ==> f in freelist
      ensures OtherMaps(old(tables), tables, old(own), d)
      ensures forall f :: f in own && f in old(data) ==> f in data && data[f] == old(data)[f]
      ensures forall f :: f in old(freelist) ==> f in freelist
    {
      hide Owned, DataOk, Flat, NoUserPages, OtherMaps, Left, Without, Unmapped, Belongs, FreeOk, Frames;
      ghost var own0, t0, free0 := own, tables, freelist;
      var x := Deallocuvm(d, KERNBASE, 0);
      AllUnmapped(t0, tables, own0, own, d);
      ghost var data1 := data;
      FreeTables(d, own0, t0);
      ghost var own2 := own;
      Release(d);
      tables := tables - {d};
      ShapeOf(tables, own);
      LeftMeans(own0, own2, d);
      BackInFree(free0, own0, freelist, own, leaked, d);
    }

    // A kalloc'd page becomes an empty directory.
    method NewDir() returns (r: Option<nat>)
      requires Valid()
      modifies this`freelist, this`tables, this`own
      ensures Valid() && AllFrames() == old(AllFrames()) && SameMaps(old(tables), tables, old(own))
      ensures r.None? ==> own == old(own) && tables == old(tables) && freelist == old(freelist)
      ensures r.Some? ==>
                && r.value in old(freelist) && r.value !in old(own) && own == old(own)[r.value := DirOf]
                && (forall q :: 0 <= q < PAGES ==> Flat(tables, r.value, q) == Absent)
                && (forall f :: f in freelist ==> f in old(freelist))
                && TablesFor(tables, r.value, 0)
                && Entries(tables, r.value) == {} && |old(freelist)| == |freelist| + 1
      ensures r.None? <==> old(freelist) == []
    {
      hide Owned, FreeOk, DataOk, Flat, TablesFor, Entries;
      SameMapsRefl(tables, own);
      r := Kalloc();
      if r.None? {
        return;
      }
      AddDir(tables, own, r.value);
      tables := tables[r.value := EmptyTable()];
      own := own[r.value := DirOf];
      FreeOwn(freelist, old(own), own, leaked);
      DataSame(old(own), own, data);
      ShapeOf(tables, own);
      NoTablesYet(tables, r.value);
      EntriesOfEmpty(tables, r.value);
    }

    // setupkvm: a directory with the kernel's mappings and no user page.
    method Setupkvm(kmap: seq<Region>) returns (r: Option<nat>)
      requires Valid() && KernelMap(kmap)
      modifies this`freelist, this`tables, this`data, this`own
      ensures Valid() && AllFrames() == old(AllFrames()) && SameMaps(old(tables), tables, old(own))
      ensures forall f :: f in old(own) && f in old(data) ==> f in data && data[f] == old(data)[f]
      ensures r.None? ==> own == old(own)
      ensures r.Some? ==> Built(old(own), own, old(freelist), freelist, r.value)
                          && NoUserPages(tables, r.value) && KernelPages(tables, r.value, kmap, |kmap|)
                          && TablesFor(tables, r.value, 0) && KernelAccess(tables, r.value, kmap)
      ensures r.None? <==> |old(freelist)| < 1 + KernelTables(kmap)
      ensures r.Some? ==> |freelist| == |old(freelist)| - 1 - KernelTables(kmap)
    {
      hide TablesFor, TablesAdded, TableHere, Bought, Lacks, KernelBought, KernelTables;
      hide Owned, FreeOk, DataOk, Flat, SameMaps, Took, Mapped, KernelPages, NoUserPages, UserFrames, Frames;
      ghost var own0, t0, free0 := own, tables, freelist;
      r := NewDir();
      if r.None? {
        return;
      }
      var d := r.value;
      ghost var own1, free1 := own, freelist;
      NoPagesYet(tables, d, kmap);
      BuiltStart(own0, own, free0, freelist, d);
      KernelStart(free0, freelist, tables, d, kmap);
      var k := 0;
      while k < |kmap|
        invariant 0 <= k <= |kmap| && Valid() && AllFrames() == old(AllFrames()) && SameMaps(t0, tables, own0)
        invariant Built(own0, own, free0, freelist, d) && data == old(data) && KernelBought(free0, freelist, tables, d, kmap, k)
        invariant NoUserPages(tables, d) && KernelPages(tables, d, kmap, k) && TablesFor(tables, d, 0)
      {
        ghost var own2, t2, free2 := own, tables, freelist;
        RegionOk(kmap, k);
        ghost var m;
        var e;
        e, m := Mappages(d, kmap[k].virt, kmap[k].size, kmap[k].phys, kmap[k].perm);
        BuiltMore(own0, own2, own, free0, free2, freelist, d, kmap[k], m);
        TablesForKernel(t2, tables, own2, d, kmap[k].First(), kmap[k].Last());
        RegionMapped(t0, t2, tables, own0, own2, d, kmap, k, m, e);
        if e != Ok(0) {
          KernelShort(free0, free2, freelist, t2, tables, d, kmap, k, m);
          ghost var own3, t3 := own, tables;
          Freevm(d);
          BackToStart(t0, t3, tables, own0, own3, own, free0, d);
          return None;
        }
        KernelRow(free0, free2, freelist, t2, tables, d, kmap, k);
        k := k + 1;
      }
      KernelEnd(free0, freelist, tables, d, kmap);
      RowsAccess(tables, own, d, kmap);
    }

    // One turn of copyuvm's loop.  If the page cannot be mapped in nd, the page kalloc gave is lost.
    method CopyOne(d: nat, nd: nat, p: nat) returns (r: Result<bool>, ghost lost: set<nat>)
      requires Valid() && IsDir(own, d) && IsDir(own, nd) && nd != d && p < UPAGES && Flat(tables, nd, p).Absent?
      modifies this`freelist, this`tables, this`data, this`own, this`leaked
      ensures Valid() && IsDir(own, d) && IsDir(own, nd) && AllFrames() == old(AllFrames()) && leaked == old(leaked) + lost
      ensures r.Panic? <==> Flat(old(tables), d, p).Absent?
      ensures Took(old(own), own, old(freelist), freelist, nd, ToSet(old(freelist)))
      ensures forall f :: f in old(own) && f in old(data) ==> f in data && data[f] == old(data)[f]
      ensures r == Ok(true) ==> lost == {} && CopyAt(old(tables), tables, old(own), old(freelist), data, d, nd, p)
      ensures r != Ok(true) ==> SameMaps(old(tables), tables, old(own)) && lost <= ToSet(old(freelist)) && |lost| <= 1
      ensures var need := if TableHere(old(tables), nd, p) then 1 else 2;
        && (r.Panic? ==> lost == {})
        && (r.Ok? ==> (r.value <==> |old(freelist)| >= need) && (lost != {} <==> need == 2 && |old(freelist)| == 1))
        && (r == Ok(true) ==> |old(freelist)| == |freelist| + need)
      ensures TablesAdded(old(tables), tables, old(own), nd, p / NPTENTRIES, p / NPTENTRIES)
    {
      hide TablesAdded;
      hide Owned, FreeOk, DataOk, Flat, Mapped, SameMaps, CopyAt, Took, UserFrames, TableHere;
      ghost var own0, t0, free0, data0 := own, tables, freelist, data;
      lost := {};
      TookRefl(own, freelist, nd, ToSet(freelist));
      SameMapsRefl(tables, own);
      AddedNone(tables, own, nd, p / NPTENTRIES, p / NPTENTRIES);
      TableThere(tables, own, d, p);
      var ok := Walkpgdir(d, p, false);
      if !ok {
        return Panic("copyuvm: pte should exist"), lost;
      }
      HereMeans(tables, d, p);
      var x := tables[tables[d][p / NPTENTRIES].frame][p % NPTENTRIES];
      if x.Absent? {
        return Panic("copyuvm: page not present"), lost;
      }
      var ok2;
      ok2, lost := CopyPage(d, nd, p, x);
      r := Ok(ok2);
    }

    // The page behind x is copied to a fresh frame, which is mapped as page p of nd.
    method CopyPage(d: nat, nd: nat, p: nat, x: Pte) returns (ok: bool, ghost lost: set<nat>)
      requires Valid() && IsDir(own, d) && IsDir(own, nd) && nd != d && p < UPAGES && Flat(tables, nd, p).Absent?
      requires x.Entry? && x == Flat(tables, d, p)
      modifies this`freelist, this`tables, this`data, this`own, this`leaked
      ensures Valid() && IsDir(own, d) && IsDir(own, nd) && AllFrames() == old(AllFrames()) && leaked == old(leaked) + lost
      ensures Took(old(own), own, old(freelist), freelist, nd, ToSet(old(freelist)))
      ensures forall f :: f in old(own) && f in old(data) ==> f in data && data[f] == old(data)[f]
      ensures ok ==> lost == {} && CopyAt(old(tables), tables, old(own), old(freelist), data, d, nd, p)
      ensures !ok ==> SameMaps(old(tables), tables, old(own)) && lost <= ToSet(old(freelist)) && |lost| <= 1
      ensures lost != {} <==> |old(freelist)| == 1 && !TableHere(old(tables), nd, p)
      ensures var need := if TableHere(old(tables), nd, p) then 1 else 2;
        (ok <==> |old(freelist)| >= need) && (ok ==> |old(freelist)| == |freelist| + need)
      ensures TablesAdded(old(tables), tables, old(own), nd, p / NPTENTRIES, p / NPTENTRIES)
    {
      hide Owned, FreeOk, DataOk, Flat, Mapped, SameMaps, CopyAt, Took, UserFrames, Frames, ToSet, TableHere, TablesAdded;
      hide Bought, Lacks;
      ghost var own0, t0, free0, data0 := own, tables, freelist, data;
      lost := {};
      TookRefl(own, freelist, nd, ToSet(freelist));
      SameMapsRefl(tables, own);
      AddedNone(tables, own, nd, p / NPTENTRIES, p / NPTENTRIES);
      PageThere(tables, own, data, d, p);
      var mem := Kalloc();
      if mem.None? {
        return false, lost;
      }
      data := data[mem.value := data[x.frame]];
      DataMore(own, data0, data);
      ok := MapFresh(nd, p, mem.value, x.perm);
      TookTail(own0, own, free0, freelist, nd, if ok then {mem.value} else {});
      StillDir(own0, own, free0, freelist, nd, ToSet(free0));
      CopyMapped(t0, tables, own0, d, nd, p, if ok then 1 else 0, mem.value, x, free0, data);
      FramesMore(freelist, own, leaked, mem.value, free0, own0);
      if !ok {
        LoseOne(freelist, own, leaked, mem.value);
        leaked := leaked + {mem.value};
        lost := {mem.value};
      }
    }

    // copyuvm: a new directory with the same user pages, or none.
    method Copyuvm(d: nat, sz: nat, kmap: seq<Region>) returns (r: Result<Option<nat>>, ghost lost: set<nat>)
      requires Valid() && IsDir(own, d) && KernelMap(kmap) && sz <= KERNBASE
      modifies this`freelist, this`tables, this`data, this`own, this`leaked
      ensures Valid() && AllFrames() == old(AllFrames()) && SameMaps(old(tables), tables, old(own))
      ensures leaked == old(leaked) + lost && lost <= ToSet(old(freelist)) && |lost| <= 1
      ensures forall f :: f in old(own) && f in old(data) ==> f in data && data[f] == old(data)[f]
      ensures r == Ok(None) ==> own == old(own)
      ensures r.Ok? && r.value.Some? ==>
                var nd := r.value.value;
                && lost == {} && nd in old(freelist) && nd !in old(own) && IsDir(own, nd)
                && Copied(old(tables), tables, old(freelist), data, d, nd, PageUp(sz))
                && SameAccess(old(tables), tables, d, nd, PageUp(sz))
                && KernelPages(tables, nd, kmap, |kmap|) && KernelAccess(tables, nd, kmap)
      ensures var spare, n := |old(freelist)| - 1 - KernelTables(kmap), PageUp(sz);
        && (r.Ok? && r.value.Some? <==> Copies(old(tables), d, n, spare))
        && (r.Panic? <==> exists q: nat :: Stops(old(tables), d, n, spare, q))
        && (lost != {} <==> Loses(old(tables), d, n, spare))
    {
      hide TablesFor, TablesAdded, TableHere, FramesFor, KernelTables, Copies, Stops, Loses;
      hide Owned, FreeOk, DataOk, Flat, SameMaps, CopyAt, Took, Copied, NoUserPages, KernelPages, NoneMissing, Built;
      ghost var own0, t0, free0 := own, tables, freelist;
      lost := {};
      ghost var spare := |freelist| - 1 - KernelTables(kmap);
      var s := Setupkvm(kmap);
      if s.None? {
        NothingCopied(t0, d, PageUp(sz), spare);
        return Ok(None), lost;
      }
      NoFramesYet();
      var nd := s.value;
      ghost var free1 := freelist;
      MadeStart(own0, own, free0, freelist, nd, d);
      CopiedNone(t0, tables, free0, data, d, nd);
      MissingNone(t0, d);
      var i := 0;
      while i * PGSIZE < sz
        invariant 0 <= i <= PageUp(sz) && Valid() && AllFrames() == old(AllFrames()) && leaked == old(leaked) && lost == {}
        invariant SameMaps(t0, tables, own0) && Made(own0, own, free0, freelist, nd) && IsDir(own, d) && nd != d
        invariant forall f :: f in own0 && f in old(data) ==> f in data && data[f] == old(data)[f]
        invariant Copied(t0, tables, free0, data, d, nd, i) && NoneMissing(t0, d, i)
        invariant TablesFor(tables, nd, i) && spare == FramesFor(i) + |freelist| && KernelPages(tables, nd, kmap, |kmap|)
        decreases sz - i * PGSIZE
      {
        ghost var own1, t1, freeA, data1 := own, tables, freelist, data;
        InUserHalf(i, sz);
        FlatSameAt(t0, tables, own0, d, i);
        CopiedAbsent(t0, tables, free0, data, d, nd, i);
        var c;
        c, lost := CopyOne(d, nd, i);
        TableForPage(t1, nd, i);
        FramesForNext(i);
        MadeMore(own0, own1, own, free0, freeA, freelist, nd);
        if c != Ok(true) {
          SameTrans(t0, t1, tables, own0, own1);
          if c.Panic? {
            CopyStops(t0, d, i, PageUp(sz), spare);
            return Panic(c.why), lost;
          }
          CopyFails(t0, d, i, PageUp(sz), spare);
          ghost var own2, t2, free2 := own, tables, freelist;
          Freevm(nd);
          MadeBelongs(own0, own2, free0, free2, nd);
          BackToStart(t0, t2, tables, own0, own2, own, free0, nd);
          return Ok(None), lost;
        }
        CopiedThere(t1, tables, own1, freeA, data, d, nd, i);
        KernelStays(t1, tables, own1, freeA, data, d, nd, i, kmap);
        TablesForNext(t1, tables, own1, own, nd, i);
        CopiedMore(t0, t1, tables, own0, own1, own, free0, freeA, data1, data, d, nd, i);
        i := i + 1;
      }
      assert i == PageUp(sz);
      CopyDone(t0, d, i, spare);
      CopiedAccess(t0, tables, own0, own, free0, data, d, nd, i);
      RowsAccess(tables, own, nd, kmap);
      r := Ok(Some(nd));
    }
  }

  lemma CopiedThere(t0: Tables, t1: Tables, own: map<nat, Role>, free0: seq<nat>, data: map<nat, Page>, d: nat, nd: nat, p: nat)
    requires Shape(t0) && Shape(t1) && p < PAGES && CopyAt(t0, t1, own, free0, data, d, nd, p)
    ensures Flat(t1, nd, p).Entry?
  {
  }

  lemma TableForPage(t: Tables, d: nat, i: nat)
    requires Shape(t) && i < UPAGES && TablesFor(t, d, i)
    ensures TableHere(t, d, i) <==> i % NPTENTRIES != 0
  {
    hide TableHere;
    FramesForNext(i);
  }

  lemma NoFramesYet()
    ensures FramesFor(0) == 0
  {
  }

  // With frames for all pages nothing is lost.
  lemma EnoughFrames(spare: nat, n: nat)
    requires spare >= FramesFor(n)
    ensures !(spare % (NPTENTRIES + 1) == 1 && spare / (NPTENTRIES + 1) * NPTENTRIES < n)
  {
  }

  // ---- how the copy of the first n pages ends, with spare frames left once the kernel part is there ----

  // All pages are there, and frames for them and their tables.
  ghost predicate Copies(t: Tables, d: nat, n: nat, spare: int)
    requires Shape(t)
  {
    spare >= FramesFor(n) && NoneMissing(t, d, n)
  }

  // Page q is the first one that is not there, and there are frames for those before it.
  ghost predicate Stops(t: Tables, d: nat, n: nat, spare: int, q: nat)
    requires Shape(t)
  {
    q < n && q < UPAGES && Flat(t, d, q).Absent? && NoneMissing(t, d, q) && FramesFor(q) <= spare
  }

  // The frames fill whole tables but for one frame, which is taken for a page that needs another table, and
  // is not given back.
  ghost predicate Loses(t: Tables, d: nat, n: nat, spare: int)
    requires Shape(t)
  {
    && spare >= 0 && spare % (NPTENTRIES + 1) == 1
    && var q := spare / (NPTENTRIES + 1) * NPTENTRIES;
    q < n && NoneMissing(t, d, q + 1)
  }

  lemma NothingCopied(t: Tables, d: nat, n: nat, spare: int)
    requires Shape(t) && spare < 0
    ensures !Copies(t, d, n, spare) && !Loses(t, d, n, spare) && forall q: nat :: !Stops(t, d, n, spare, q)
  {
  }

  lemma CopyStops(t: Tables, d: nat, i: nat, n: nat, spare: int)
    requires Shape(t) && i < n && i < UPAGES && Flat(t, d, i).Absent? && NoneMissing(t, d, i) && FramesFor(i) <= spare
    ensures Stops(t, d, n, spare, i) && !Copies(t, d, n, spare) && !Loses(t, d, n, spare)
  {
    if spare % (NPTENTRIES + 1) == 1 {
      var k := spare / (NPTENTRIES + 1);
      FullTables(k);
      FramesForNext(NPTENTRIES * k);
      FramesForOrder(NPTENTRIES * k, i);
      hide FramesFor, Flat;
      assert NoneMissing(t, d, NPTENTRIES * k + 1) ==> NPTENTRIES * k < i;
    }
  }

  lemma CopyFails(t: Tables, d: nat, i: nat, n: nat, spare: int)
    requires Shape(t) && i < n && i < UPAGES && Flat(t, d, i).Entry? && NoneMissing(t, d, i)
    requires FramesFor(i) <= spare < FramesFor(i + 1)
    ensures !Copies(t, d, n, spare) && forall q: nat :: !Stops(t, d, n, spare, q)
    ensures Loses(t, d, n, spare) <==> spare == FramesFor(i) + 1 && i % NPTENTRIES == 0
  {
    LastFrame(spare, i, n);
    hide Flat;
    assert NoneMissing(t, d, i + 1);
    forall q: nat ensures !Stops(t, d, n, spare, q) {
      FramesForOrder(i, q);
    }
  }

  lemma CopyDone(t: Tables, d: nat, n: nat, spare: int)
    requires Shape(t) && FramesFor(n) <= spare && NoneMissing(t, d, n)
    ensures Copies(t, d, n, spare) && !Loses(t, d, n, spare) && forall q: nat :: !Stops(t, d, n, spare, q)
  {
    EnoughFrames(spare, n);
  }

  // Page p of nd is a copy, in a frame that was free, of page p of d.
  predicate CopyOf(x: Pte, y: Pte, free0: seq<nat>, data: map<nat, Page>) {
    && x.Entry? && y.Entry? && y.perm == x.perm && y.frame in free0 && x.frame in data && y.frame in data
    && data[y.frame] == data[x.frame]
  }

  ghost predicate CopyAt(t0: Tables, t1: Tables, own: map<nat, Role>, free0: seq<nat>, data: map<nat, Page>, d: nat, nd: nat, p: nat)
    requires Shape(t0) && Shape(t1) && p < PAGES
  {
    && CopyOf(Flat(t0, d, p), Flat(t1, nd, p), free0, data)
    && forall e, q :: IsDir(own, e) && 0 <= q < PAGES && (e != nd || q != p) ==> Flat(t1, e, q) == Flat(t0, e, q)
  }

  // Pages 0 .. n - 1 of nd are copies of d's; it has no other user page.
  ghost predicate Copied(t0: Tables, t1: Tables, free0: seq<nat>, data: map<nat, Page>, d: nat, nd: nat, n: nat)
    requires Shape(t0) && Shape(t1)
  {
    forall q :: 0 <= q < UPAGES ==>
      if q < n then CopyOf(Flat(t0, d, q), Flat(t1, nd, q), free0, data) else Flat(t1, nd, q).Absent?
  }

  // The user may do with the first n pages of nd just what it may do with those of d.
  ghost predicate SameAccess(t0: Tables, t1: Tables, d: nat, nd: nat, n: nat)
    requires Shape(t0) && Shape(t1)
  {
    forall q :: 0 <= q < n && q < UPAGES ==>
      && (Allows(t1, nd, q, PTE_U) <==> Allows(t0, d, q, PTE_U))
      && (Allows(t1, nd, q, PTE_W) <==> Allows(t0, d, q, PTE_W))
  }

  lemma CopiedAccess(t0: Tables, t1: Tables, own0: map<nat, Role>, own1: map<nat, Role>, free0: seq<nat>, data: map<nat, Page>, d: nat, nd: nat, n: nat)
    requires Owned(t0, own0) && Owned(t1, own1) && IsDir(own0, d) && IsDir(own1, nd) && Copied(t0, t1, free0, data, d, nd, n)
    ensures SameAccess(t0, t1, d, nd, n)
  {
    forall q | 0 <= q < n && q < UPAGES
      ensures (Allows(t1, nd, q, PTE_U) <==> Allows(t0, d, q, PTE_U)) && (Allows(t1, nd, q, PTE_W) <==> Allows(t0, d, q, PTE_W))
    {
      AccessIs(t0, own0, d, q, PTE_U);
      AccessIs(t0, own0, d, q, PTE_W);
      AccessIs(t1, own1, nd, q, PTE_U);
      AccessIs(t1, own1, nd, q, PTE_W);
      hide Flat, Owned, Allows;
      assert CopyOf(Flat(t0, d, q), Flat(t1, nd, q), free0, data);
    }
  }

  ghost predicate NoneMissing(t: Tables, d: nat, n: nat)
    requires Shape(t)
  {
    forall q :: 0 <= q < n && q < UPAGES ==> Flat(t, d, q).Entry?
  }

  lemma MissingNone(t: Tables, d: nat)
    requires Shape(t)
    ensures NoneMissing(t, d, 0)
  {
  }

  lemma CopiedNone(t0: Tables, t1: Tables, free0: seq<nat>, data: map<nat, Page>, d: nat, nd: nat)
    requires Shape(t0) && Shape(t1) && NoUserPages(t1, nd)
    ensures Copied(t0, t1, free0, data, d, nd, 0)
  {
  }

  lemma CopiedAbsent(t0: Tables, t1: Tables, free0: seq<nat>, data: map<nat, Page>, d: nat, nd: nat, i: nat)
    requires Shape(t0) && Shape(t1) && Copied(t0, t1, free0, data, d, nd, i) && i < UPAGES
    ensures Flat(t1, nd, i).Absent?
  {
  }

  lemma PageThere(t: Tables, own: map<nat, Role>, data: map<nat, Page>, d: nat, p: nat)
    requires Owned(t, own) && DataOk(own, data) && IsDir(own, d) && p < UPAGES
    ensures Flat(t, d, p).Entry? ==> Flat(t, d, p).frame in own && Flat(t, d, p).frame in data
  {
    assert PteOk(t, own, d, p);
  }

  lemma CopyMapped(t0: Tables, t1: Tables, own: map<nat, Role>, d: nat, nd: nat, p: nat, m: nat, f: nat, x: Pte,
                   free0: seq<nat>, data: map<nat, Page>)
    requires Shape(t0) && Shape(t1) && p < PAGES && m <= 1 && x.Entry? && x == Flat(t0, d, p) && IsDir(own, nd)
    requires Mapped(t0, t1, own, nd, p, m, f, x.perm) && f in free0 && f in data && x.frame in data && data[f] == data[x.frame]
    ensures m == 0 ==> SameMaps(t0, t1, own)
    ensures m == 1 ==> CopyAt(t0, t1, own, free0, data, d, nd, p)
  {
    hide Flat;
  }

  lemma FramesMore(free: seq<nat>, own: map<nat, Role>, leaked: set<nat>, f: nat, free0: seq<nat>, own0: map<nat, Role>)
    ensures Frames(free, own, leaked + {f}) == Frames(free, own, leaked) + {f}
    ensures f in free0 ==> {f} <= ToSet(free0) && f in Frames(free0, own0, leaked)
  {
  }

  lemma LoseOne(free: seq<nat>, own: map<nat, Role>, leaked: set<nat>, f: nat)
    requires FreeOk(free, own, leaked) && f !in free && f !in own
    ensures FreeOk(free, own, leaked + {f})
  {
  }

  // Frames taken for the copy belong to its directory.
  ghost predicate Made(own0: map<nat, Role>, own: map<nat, Role>, free0: seq<nat>, free: seq<nat>, nd: nat) {
    && nd in free0 && nd !in own0 && IsDir(own, nd)
    && (forall f :: f in own0 ==> f in own && own[f] == own0[f])
    && (forall f :: f in own && f !in own0 ==> f in free0 && (f == nd || Belongs(own[f], nd)))
    && (forall f :: f in free ==> f in free0)
  }

  lemma MadeStart(own0: map<nat, Role>, own: map<nat, Role>, free0: seq<nat>, free: seq<nat>, nd: nat, d: nat)
    requires Built(own0, own, free0, free, nd) && IsDir(own0, d)
    ensures Made(own0, own, free0, free, nd) && IsDir(own, d) && nd != d
  {
  }

  lemma MadeMore(own0: map<nat, Role>, own1: map<nat, Role>, own2: map<nat, Role>, free0: seq<nat>, free1: seq<nat>, free2: seq<nat>, nd: nat)
    requires Made(own0, own1, free0, free1, nd) && Took(own1, own2, free1, free2, nd, ToSet(free1))
    ensures Made(own0, own2, free0, free2, nd)
  {
    forall f | f in own2 && f !in own1 ensures Gained(own2[f], free1, nd, ToSet(free1), f) {
    }
  }

  lemma MadeBelongs(own0: map<nat, Role>, own: map<nat, Role>, free0: seq<nat>, free: seq<nat>, nd: nat)
    requires Made(own0, own, free0, free, nd)
    ensures nd !in own0 && forall f :: f in own && f !in own0 ==> f == nd || Belongs(own[f], nd)
    ensures forall f :: f in own0 ==> f in own && own[f] == own0[f]
  {
  }

  lemma SameTrans(t0: Tables, t1: Tables, t2: Tables, own0: map<nat, Role>, own1: map<nat, Role>)
    requires Shape(t0) && Shape(t1) && Shape(t2) && SameMaps(t0, t1, own0) && SameMaps(t1, t2, own1)
    requires forall f :: f in own0 ==> f in own1 && own1[f] == own0[f]
    ensures SameMaps(t0, t2, own0)
  {
    hide Flat;
    forall e, q | IsDir(own0, e) && 0 <= q < PAGES ensures Flat(t2, e, q) == Flat(t0, e, q) {
      assert IsDir(own1, e);
    }
  }

  lemma CopiedMore(t0: Tables, t1: Tables, t2: Tables, own0: map<nat, Role>, own1: map<nat, Role>, own2: map<nat, Role>,
                   free0: seq<nat>, free1: seq<nat>, data1: map<nat, Page>, data2: map<nat, Page>, d: nat, nd: nat, i: nat)
    requires Shape(t0) && Owned(t0, own0) && Owned(t1, own1) && Shape(t2) && i < UPAGES && IsDir(own0, d) && nd != d
    requires Made(own0, own1, free0, free1, nd) && SameMaps(t0, t1, own0)
    requires Copied(t0, t1, free0, data1, d, nd, i) && CopyAt(t1, t2, own1, free1, data2, d, nd, i)
    requires NoneMissing(t0, d, i)
    requires forall f :: f in own1 && f in data1 ==> f in data2 && data2[f] == data1[f]
    ensures Copied(t0, t2, free0, data2, d, nd, i + 1) && SameMaps(t0, t2, own0) && NoneMissing(t0, d, i + 1)
  {
    hide Flat;
    assert IsDir(own1, d) && Flat(t1, d, i) == Flat(t0, d, i);
    forall e, q | IsDir(own0, e) && 0 <= q < PAGES ensures Flat(t2, e, q) == Flat(t0, e, q) {
      assert IsDir(own1, e) && e != nd;
    }
    forall q | 0 <= q < UPAGES
      ensures if q < i + 1 then CopyOf(Flat(t0, d, q), Flat(t2, nd, q), free0, data2) else Flat(t2, nd, q).Absent?
    {
      if q < i {
        assert PteOk(t1, own1, nd, q) && PteOk(t0, own0, d, q);
      }
    }
  }

  // One row of kmap[]: virtual addresses virt .. virt + size - 1 on physical addresses from phys on.
  datatype Region = Region(virt: nat, size: nat, phys: nat, perm: nat) {
    function First(): nat { PageDown(virt) }

    function Last(): nat requires virt + size > 0 { PageDown(virt + size - 1) }
  }

  // The rows lie above KERNBASE and do not overlap.
  ghost predicate KernelMap(kmap: seq<Region>) {
    && (forall k :: 0 <= k < |kmap| ==> RowOk(kmap[k]))
    && (forall j, k :: 0 <= j < k < |kmap| ==> Apart(kmap[j], kmap[k]))
  }

  predicate RowOk(r: Region) { r.size > 0 && KERNBASE <= r.virt && r.virt + r.size <= TWO32 && r.phys % PGSIZE == 0 }

  predicate Apart(a: Region, b: Region) {
    RowOk(a) && RowOk(b) && (a.Last() < b.First() || b.Last() < a.First())
  }

  predicate InRow(r: Region, q: nat) { RowOk(r) && r.First() <= q <= r.Last() }

  // The directory entries of a row, and of rows 0 .. n - 1.
  function RowEntries(r: Region): set<nat> {
    if r.size == 0 then {} else Span(r.First(), r.Last() - r.First() + 1)
  }

  function KernelEntries(kmap: seq<Region>, n: nat): set<nat>
    requires n <= |kmap|
  {
    if n == 0 then {} else KernelEntries(kmap, n - 1) + RowEntries(kmap[n - 1])
  }

  // The number of page tables that the kernel part of a directory needs.
  function KernelTables(kmap: seq<Region>): nat { |KernelEntries(kmap, |kmap|)| }

  // Directory d has the tables for rows 0 .. k - 1; they and d itself are what left the free list.
  ghost predicate KernelBought(free0: seq<nat>, free1: seq<nat>, t: Tables, d: nat, kmap: seq<Region>, k: nat)
    requires Shape(t)
  {
    k <= |kmap| && Entries(t, d) == KernelEntries(kmap, k) && |free0| == |free1| + 1 + |KernelEntries(kmap, k)|
  }

  lemma KernelStart(free0: seq<nat>, free1: seq<nat>, t: Tables, d: nat, kmap: seq<Region>)
    requires Shape(t) && Entries(t, d) == {} && |free0| == |free1| + 1
    ensures KernelBought(free0, free1, t, d, kmap, 0)
  {
    hide Entries;
  }

  lemma KernelEnd(free0: seq<nat>, free1: seq<nat>, t: Tables, d: nat, kmap: seq<Region>)
    requires Shape(t) && KernelBought(free0, free1, t, d, kmap, |kmap|)
    ensures |free0| == |free1| + 1 + KernelTables(kmap)
  {
  }

  lemma {:induction false} KernelPrefix(kmap: seq<Region>, k: nat, n: nat)
    requires k <= n <= |kmap|
    ensures KernelEntries(kmap, k) <= KernelEntries(kmap, n)
    decreases n
  {
    if k < n { KernelPrefix(kmap, k, n - 1); }
  }

  lemma RowBought(free0: seq<nat>, free1: seq<nat>, free2: seq<nat>, t1: Tables, t2: Tables, d: nat, kmap: seq<Region>, k: nat, x: set<nat>)
    requires Shape(t1) && Shape(t2) && KernelBought(free0, free1, t1, d, kmap, k)
    requires Entries(t2, d) == Entries(t1, d) + x && |free2| + |Entries(t2, d)| == |free1| + |Entries(t1, d)|
    ensures k <= |kmap| && Entries(t2, d) == KernelEntries(kmap, k) + x && |free0| == |free2| + 1 + |Entries(t2, d)|
  {
    hide Entries, KernelEntries;
  }

  // A row got all its tables.
  lemma KernelRow(free0: seq<nat>, free1: seq<nat>, free2: seq<nat>, t1: Tables, t2: Tables, d: nat, kmap: seq<Region>, k: nat)
    requires Shape(t1) && Shape(t2) && k < |kmap| && RowOk(kmap[k]) && KernelBought(free0, free1, t1, d, kmap, k)
    requires Bought(free1, free2, t1, t2, d, kmap[k].First(), kmap[k].Last() - kmap[k].First() + 1)
    ensures KernelBought(free0, free2, t2, d, kmap, k + 1)
  {
    RowBought(free0, free1, free2, t1, t2, d, kmap, k, RowEntries(kmap[k]));
    assert KernelEntries(kmap, k + 1) == KernelEntries(kmap, k) + RowEntries(kmap[k]);
    hide Entries, KernelEntries, Span, RowEntries;
  }

  // A row got its tables up to page m, and no frame is left for the next one: there were not enough.
  lemma KernelShort(free0: seq<nat>, free1: seq<nat>, free2: seq<nat>, t1: Tables, t2: Tables, d: nat, kmap: seq<Region>, k: nat, m: nat)
    requires Shape(t1) && Shape(t2) && k < |kmap| && RowOk(kmap[k]) && KernelBought(free0, free1, t1, d, kmap, k)
    requires m <= kmap[k].Last() - kmap[k].First() && Bought(free1, free2, t1, t2, d, kmap[k].First(), m)
    requires free2 == [] && Lacks(t2, d, (kmap[k].First() + m) / NPTENTRIES)
    ensures |free0| < 1 + KernelTables(kmap)
  {
    var first, n, i := kmap[k].First(), kmap[k].Last() - kmap[k].First() + 1, (kmap[k].First() + m) / NPTENTRIES;
    RowBought(free0, free1, free2, t1, t2, d, kmap, k, Span(first, m));
    SpanPrefix(first, m, n);
    KernelPrefix(kmap, k + 1, |kmap|);
    SpanMeans(first, n, i);
    assert KernelEntries(kmap, k + 1) == KernelEntries(kmap, k) + RowEntries(kmap[k]);
    assert RowEntries(kmap[k]) == Span(first, n);
    hide Entries, Span, KernelEntries, RowEntries;
    SmallerBy(Entries(t2, d), KernelEntries(kmap, |kmap|), i);
  }

  // Rows 0 .. n - 1 are mapped in d, and no other page is.
  ghost predicate KernelPages(t: Tables, d: nat, kmap: seq<Region>, n: nat)
    requires Shape(t)
  {
    && n <= |kmap|
    && (forall k, q :: 0 <= k < n && 0 <= q < PAGES && InRow(kmap[k], q) ==>
          Flat(t, d, q) == Entry(kmap[k].phys / PGSIZE + (q - kmap[k].First()), kmap[k].perm))
    && (forall q :: UPAGES <= q < PAGES && (forall k :: 0 <= k < n ==> !InRow(kmap[k], q)) ==> Flat(t, d, q).Absent?)
  }

  // What may be done with the pages of a row is what the row says.
  ghost predicate KernelAccess(t: Tables, d: nat, kmap: seq<Region>)
    requires Shape(t)
  {
    forall k, q :: 0 <= k < |kmap| && 0 <= q < PAGES && InRow(kmap[k], q) ==>
      && (Allows(t, d, q, PTE_W) <==> Has(kmap[k].perm, PTE_W))
      && (Allows(t, d, q, PTE_U) <==> Has(kmap[k].perm, PTE_U))
  }

  lemma RowsAccess(t: Tables, own: map<nat, Role>, d: nat, kmap: seq<Region>)
    requires Owned(t, own) && Shape(t) && IsDir(own, d) && KernelPages(t, d, kmap, |kmap|)
    ensures KernelAccess(t, d, kmap)
  {
    forall k, q | 0 <= k < |kmap| && 0 <= q < PAGES && InRow(kmap[k], q)
      ensures (Allows(t, d, q, PTE_W) <==> Has(kmap[k].perm, PTE_W)) && (Allows(t, d, q, PTE_U) <==> Has(kmap[k].perm, PTE_U))
    {
      AccessIs(t, own, d, q, PTE_W);
      AccessIs(t, own, d, q, PTE_U);
    }
  }

  // Copying a user page leaves the kernel's rows.
  lemma KernelStays(t0: Tables, t1: Tables, own: map<nat, Role>, free0: seq<nat>, data: map<nat, Page>, d: nat, nd: nat, p: nat, kmap: seq<Region>)
    requires Shape(t0) && Shape(t1) && p < UPAGES && IsDir(own, nd) && KernelMap(kmap)
    requires CopyAt(t0, t1, own, free0, data, d, nd, p) && KernelPages(t0, nd, kmap, |kmap|)
    ensures KernelPages(t1, nd, kmap, |kmap|)
  {
    hide Flat, CopyOf;
    forall q | UPAGES <= q < PAGES ensures Flat(t1, nd, q) == Flat(t0, nd, q) {
    }
    forall k | 0 <= k < |kmap| ensures RowOk(kmap[k]) && kmap[k].First() >= UPAGES {
      RegionOk(kmap, k);
    }
  }

  // Directory d and its tables were made from free frames; nothing else changed hands.
  ghost predicate Built(own0: map<nat, Role>, own: map<nat, Role>, free0: seq<nat>, free: seq<nat>, d: nat) {
    && d in free0 && d !in own0 && IsDir(own, d)
    && (forall f :: f in own0 ==> f in own && own[f] == own0[f])
    && (forall f :: f in own && f !in own0 ==> f in free0 && (f == d || (own[f].TableOf? && own[f].dir == d)))
    && (forall f :: f in free ==> f in free0)
  }

  lemma BuiltStart(own0: map<nat, Role>, own: map<nat, Role>, free0: seq<nat>, free: seq<nat>, d: nat)
    requires d in free0 && d !in own0 && own == own0[d := DirOf] && forall f :: f in free ==> f in free0
    ensures Built(own0, own, free0, free, d)
  {
  }

  lemma BuiltMore(own0: map<nat, Role>, own1: map<nat, Role>, own2: map<nat, Role>, free0: seq<nat>, free1: seq<nat>, free2: seq<nat>,
                  d: nat, r: Region, m: nat)
    requires Built(own0, own1, free0, free1, d) && r.First() >= UPAGES
    requires Took(own1, own2, free1, free2, d, UserFrames(r.First(), m, r.phys / PGSIZE))
    ensures Built(own0, own2, free0, free2, d)
    ensures UserFrames(r.First(), m, r.phys / PGSIZE) == {}
  {
    var h := UserFrames(r.First(), m, r.phys / PGSIZE);
    forall f | f in own2 && f !in own1 ensures Gained(own2[f], free1, d, h, f) {
    }
  }

  lemma RegionOk(kmap: seq<Region>, k: nat)
    requires KernelMap(kmap) && k < |kmap|
    ensures RowOk(kmap[k]) && kmap[k].First() >= UPAGES
    ensures UserFrames(kmap[k].First(), kmap[k].Last() - kmap[k].First() + 1, kmap[k].phys / PGSIZE) == {}
  {
    assert RowOk(kmap[k]);
  }

  lemma NoPagesYet(t: Tables, d: nat, kmap: seq<Region>)
    requires Shape(t) && forall q :: 0 <= q < PAGES ==> Flat(t, d, q) == Absent
    ensures NoUserPages(t, d) && KernelPages(t, d, kmap, 0)
  {
  }

  // A row was mapped, completely or up to a failure; rows do not overlap, so nothing was remapped.
  lemma RegionMapped(t0: Tables, t1: Tables, t2: Tables, own0: map<nat, Role>, own1: map<nat, Role>, d: nat, kmap: seq<Region>, k: nat,
                     m: nat, e: Result<int>)
    requires Shape(t0) && Shape(t1) && Shape(t2) && KernelMap(kmap) && k < |kmap| && d !in own0 && IsDir(own1, d)
    requires RowOk(kmap[k]) && kmap[k].First() >= UPAGES && m <= kmap[k].Last() - kmap[k].First() + 1
    requires e == Ok(0) <==> m == kmap[k].Last() - kmap[k].First() + 1
    requires e.Panic? ==> kmap[k].First() + m < PAGES && Flat(t1, d, kmap[k].First() + m).Entry?
    requires Mapped(t1, t2, own1, d, kmap[k].First(), m, kmap[k].phys / PGSIZE, kmap[k].perm)
    requires SameMaps(t0, t1, own0) && forall f :: f in own0 ==> f in own1 && own1[f] == own0[f]
    requires NoUserPages(t1, d) && KernelPages(t1, d, kmap, k)
    ensures SameMaps(t0, t2, own0) && NoUserPages(t2, d) && !e.Panic?
    ensures e == Ok(0) ==> KernelPages(t2, d, kmap, k + 1)
  {
    hide Flat;
    var next := kmap[k].First() + m;
    assert next <= kmap[k].Last() ==> InRow(kmap[k], next);
    forall x, q | IsDir(own0, x) && 0 <= q < PAGES ensures Flat(t2, x, q) == Flat(t0, x, q) {
      assert IsDir(own1, x);
    }
    forall j, q | 0 <= j < k && 0 <= q < PAGES && InRow(kmap[j], q) ensures !InRow(kmap[k], q) {
      assert Apart(kmap[j], kmap[k]);
    }
  }

  // After freevm the frames in use are those before.
  lemma BackToStart(t0: Tables, t1: Tables, t2: Tables, own0: map<nat, Role>, own1: map<nat, Role>, own2: map<nat, Role>,
                    free0: seq<nat>, d: nat)
    requires Owned(t0, own0) && Shape(t1) && Shape(t2) && d !in own0
    requires forall f :: f in own0 ==> f in own1 && own1[f] == own0[f]
    requires forall f :: f in own1 && f !in own0 ==> f == d || Belongs(own1[f], d)
    requires forall f :: f in own2 <==> f in own1 && f != d && !Belongs(own1[f], d)
    requires forall f :: f in own2 ==> own2[f] == own1[f]
    requires SameMaps(t0, t1, own0) && OtherMaps(t1, t2, own1, d)
    ensures own2 == own0 && SameMaps(t0, t2, own0)
  {
    hide Flat;
    forall f | f in own0 ensures !Belongs(own0[f], d) {
      assert RoleOk(t0, own0, f);
    }
    forall x, q | IsDir(own0, x) && 0 <= q < PAGES ensures Flat(t2, x, q) == Flat(t0, x, q) {
      assert IsDir(own1, x);
    }
    assert own2.Keys == own0.Keys;
  }

  // view is the page tables with the first i entries of d cleared.
  ghost predicate View(tables: Tables, view: Tables, d: nat, i: nat) {
    && d in tables && d in view && |tables[d]| == NPDENTRIES && |view[d]| == NPDENTRIES
    && (forall g :: g != d ==> (g in tables <==> g in view))
    && (forall g :: g in tables && g != d ==> tables[g] == view[g])
    && (forall j :: 0 <= j < NPDENTRIES ==> view[d][j] == if j < i then Absent else tables[d][j])
  }

  lemma ViewStart(t: Tables, own: map<nat, Role>, d: nat)
    requires Owned(t, own) && IsDir(own, d)
    ensures View(t, t, d, 0)
  {
    DirThere(t, own, d);
  }

  lemma ViewAt(tables: Tables, view: Tables, d: nat, i: nat)
    requires View(tables, view, d, i) && i < NPDENTRIES
    ensures d in tables && d in view && |tables[d]| == NPDENTRIES && |view[d]| == NPDENTRIES && view[d][i] == tables[d][i]
    ensures tables[d][i].Absent? ==> View(tables, view, d, i + 1)
  {
  }

  lemma ViewTable(tables: Tables, view: Tables, d: nat, i: nat)
    requires View(tables, view, d, i) && i < NPDENTRIES && view[d][i].Entry? && view[d][i].frame != d
    ensures View(tables - {view[d][i].frame}, WithoutTable(view, d, i), d, i + 1)
  {
  }

  lemma ViewEnd(tables: Tables, view: Tables, d: nat)
    requires View(tables, view, d, NPDENTRIES)
    ensures d in view && |view[d]| == NPDENTRIES && tables - {d} == view - {d}
    ensures forall j :: 0 <= j < NPDENTRIES ==> view[d][j].Absent?
  {
  }

  // The frame is a table or page of directory d.
  predicate Belongs(r: Role, d: nat) { (r.TableOf? || r.PageOf?) && r.dir == d }

  // What is not d's own is untouched.
  ghost predicate Left(own0: map<nat, Role>, own: map<nat, Role>, d: nat) {
    && (forall f :: f in own ==> f in own0 && own[f] == own0[f])
    && (forall f :: f in own0 && !Belongs(own0[f], d) ==> f in own)
  }

  lemma LeftMeans(own0: map<nat, Role>, own: map<nat, Role>, d: nat)
    requires Left(own0, own, d) && IsDir(own0, d) && forall f :: f in own && f != d ==> !Belongs(own[f], d)
    ensures forall f :: f in own - {d} <==> f in own0 && f != d && !Belongs(own0[f], d)
    ensures forall f :: f in own - {d} ==> own[f] == own0[f]
  {
  }

  lemma DirThere(t: Tables, own: map<nat, Role>, d: nat)
    requires Owned(t, own) && IsDir(own, d)
    ensures d in t && |t[d]| == NPDENTRIES
  {
    assert RoleOk(t, own, d);
  }

  lemma LeftTable(t0: Tables, view: Tables, own0: map<nat, Role>, own: map<nat, Role>, d: nat, i: nat)
    requires Shape(t0) && Owned(view, own) && IsDir(own, d) && d in view && i < |view[d]| && view[d][i].Entry? && IsDir(own0, d)
    requires Left(own0, own, d) && OtherMaps(t0, view, own0, d)
    requires var f := view[d][i].frame; var t := WithoutTable(view, d, i);
      && f in own && own[f] == TableOf(d, i) && Shape(t)
      && forall e, q :: IsDir(own, e) && e != d && 0 <= q < PAGES ==> Flat(t, e, q) == Flat(view, e, q)
    ensures Left(own0, own - {view[d][i].frame}, d) && OtherMaps(t0, WithoutTable(view, d, i), own0, d)
    ensures view[d][i].frame != d && IsDir(own - {view[d][i].frame}, d)
  {
    hide Flat, WithoutTable;
    var t := WithoutTable(view, d, i);
    forall e, q | IsDir(own0, e) && e != d && 0 <= q < PAGES ensures Flat(t, e, q) == Flat(t0, e, q) {
      assert IsDir(own, e);
      assert Flat(view, e, q) == Flat(t0, e, q);
    }
  }

  lemma LeftDir(t0: Tables, view: Tables, own0: map<nat, Role>, own: map<nat, Role>, d: nat)
    requires Shape(t0) && Shape(view) && Left(own0, own, d) && OtherMaps(t0, view, own0, d) && Shape(view - {d})
    requires forall f :: f in own ==> match own[f] { case DirOf => true case TableOf(e, _) => e != d case PageOf(e, _) => e != d }
    requires forall e, q :: IsDir(own, e) && e != d && 0 <= q < PAGES ==> Flat(view - {d}, e, q) == Flat(view, e, q)
    ensures OtherMaps(t0, view - {d}, own0, d) && forall f :: f in own && f != d ==> !Belongs(own[f], d)
  {
    hide Flat;
    var t := view - {d};
    forall e, q | IsDir(own0, e) && e != d && 0 <= q < PAGES ensures Flat(t, e, q) == Flat(t0, e, q) {
      assert IsDir(own, e);
      assert Flat(view, e, q) == Flat(t0, e, q);
    }
  }

  // deallocuvm(pgdir, KERNBASE, 0) leaves no user page.
  lemma AllUnmapped(t0: Tables, t1: Tables, own0: map<nat, Role>, own1: map<nat, Role>, d: nat)
    requires Shape(t0) && Shape(t1) && Unmapped(t0, t1, own0, d, PageUp(0), PageUp(KERNBASE)) && IsDir(own0, d)
    requires Without(own0, own1, d, PageUp(0), PageUp(KERNBASE))
    ensures NoUserPages(t1, d) && Left(own0, own1, d) && OtherMaps(t0, t1, own0, d)
  {
    assert PageUp(0) == 0 && PageUp(KERNBASE) == UPAGES;
    hide Flat;
  }

  lemma BackInFree(free0: seq<nat>, own0: map<nat, Role>, free: seq<nat>, own: map<nat, Role>, leaked: set<nat>, d: nat)
    requires FreeOk(free0, own0, leaked) && Frames(free, own, leaked) == Frames(free0, own0, leaked)
    ensures forall f :: f in own0 && f !in own ==> f in free
  {
    forall f | f in own0 && f !in own ensures f in free {
      assert f in Frames(free0, own0, leaked);
    }
  }

  function ToSet(s: seq<nat>): set<nat> { set f | f in s }

  // A zeroed user page in a frame that was free.
  predicate FreshPage(x: Pte, free0: seq<nat>, data: map<nat, Page>) {
    x.Entry? && x.perm == PTE_W + PTE_U && x.frame in free0 && x.frame in data && Zeroed(data[x.frame])
  }

  predicate Zeroed(page: Page) { |page| == PGSIZE && forall k :: 0 <= k < PGSIZE ==> page[k] == 0 }

  // Pages lo .. hi - 1 of d got fresh pages; all other entries are as before.
  ghost predicate GrownMap(t0: Tables, t1: Tables, own: map<nat, Role>, free0: seq<nat>, data: map<nat, Page>, d: nat, lo: nat, hi: nat)
    requires Shape(t0) && Shape(t1)
  {
    forall e, q :: IsDir(own, e) && 0 <= q < PAGES ==>
      if e == d && lo <= q < hi then FreshPage(Flat(t1, e, q), free0, data) else Flat(t1, e, q) == Flat(t0, e, q)
  }

  ghost predicate NoneMapped(t: Tables, d: nat, lo: nat, hi: nat)
    requires Shape(t)
  {
    forall q :: lo <= q < hi && q < PAGES ==> Flat(t, d, q).Absent?
  }

  lemma SameMapsRefl(t: Tables, own: map<nat, Role>)
    requires Shape(t)
    ensures SameMaps(t, t, own)
  {
  }

  lemma DataMore(own: map<nat, Role>, data: map<nat, Page>, data': map<nat, Page>)
    requires DataOk(own, data) && data.Keys <= data'.Keys
    ensures DataOk(own, data')
  {
  }

  lemma OneFrame(a: nat, f: nat)
    requires a < UPAGES
    ensures UserFrames(a, 1, f) == {f} && UserFrames(a, 0, f) == {}
    ensures PageDown(a * PGSIZE) == a && PageDown(a * PGSIZE + PGSIZE - 1) == a && (a + 1) * PGSIZE <= TWO32
    ensures f * PGSIZE / PGSIZE == f && f * PGSIZE % PGSIZE == 0
  {
    assert UserFrames(a, 1, f) == UserFrames(a, 0, f) + {f};
  }

  lemma MappedAbsent(t0: Tables, d: nat, a: nat, r: Result<int>, m: nat)
    requires Shape(t0) && a < PAGES && Flat(t0, d, a).Absent? && m <= 1 && (r == Ok(0) <==> m == 1)
    requires r.Panic? ==> a + m < PAGES && Flat(t0, d, a + m).Entry?
    ensures !r.Panic?
  {
  }

  lemma TookTail(own0: map<nat, Role>, own1: map<nat, Role>, free0: seq<nat>, free1: seq<nat>, d: nat, h: set<nat>)
    requires free0 != [] && Took(own0, own1, free0[1..], free1, d, h) && h <= {free0[0]}
    ensures Took(own0, own1, free0, free1, d, ToSet(free0))
  {
    forall f | f in own1 && f !in own0 ensures Gained(own1[f], free0, d, ToSet(free0), f) {
      assert Gained(own1[f], free0[1..], d, h, f);
    }
  }

  lemma TookSub(own0: map<nat, Role>, own1: map<nat, Role>, own2: map<nat, Role>, free0: seq<nat>, free1: seq<nat>, free2: seq<nat>, d: nat)
    requires Took(own0, own1, free0, free1, d, ToSet(free0)) && Took(own1, own2, free1, free2, d, ToSet(free1))
    ensures Took(own0, own2, free0, free2, d, ToSet(free0))
  {
    TookTrans(own0, own1, own2, free0, free1, free2, d, ToSet(free0), ToSet(free1));
    assert ToSet(free0) + ToSet(free1) == ToSet(free0);
  }

  lemma OneMapped(t0: Tables, t1: Tables, own: map<nat, Role>, d: nat, a: nat, m: nat, f: nat, free0: seq<nat>, data: map<nat, Page>)
    requires Shape(t0) && Shape(t1) && Mapped(t0, t1, own, d, a, m, f, PTE_W + PTE_U) && m <= 1
    requires f in free0 && f in data && data[f] == ZeroPage()
    ensures m == 0 ==> SameMaps(t0, t1, own)
    ensures m == 1 ==> GrownMap(t0, t1, own, free0, data, d, a, a + 1)
  {
    hide Flat;
  }

  // The user can read and write the new pages.
  lemma GrownAccess(t0: Tables, t1: Tables, own0: map<nat, Role>, own1: map<nat, Role>, free0: seq<nat>, data: map<nat, Page>, d: nat, lo: nat, hi: nat)
    requires Shape(t0) && Owned(t1, own1) && IsDir(own0, d) && IsDir(own1, d) && hi <= UPAGES
    requires GrownMap(t0, t1, own0, free0, data, d, lo, hi)
    ensures forall q :: lo <= q < hi ==> Allows(t1, d, q, PTE_U) && Allows(t1, d, q, PTE_W)
  {
    forall q | lo <= q < hi ensures Allows(t1, d, q, PTE_U) && Allows(t1, d, q, PTE_W) {
      AccessIs(t1, own1, d, q, PTE_U);
      AccessIs(t1, own1, d, q, PTE_W);
      hide Flat, Owned, Allows;
      assert FreshPage(Flat(t1, d, q), free0, data);
    }
  }

  lemma GrownNone(t: Tables, own: map<nat, Role>, free: seq<nat>, data: map<nat, Page>, d: nat, a: nat)
    requires Shape(t)
    ensures GrownMap(t, t, own, free, data, d, a, a)
  {
  }

  lemma GrownIsSame(t0: Tables, t1: Tables, own: map<nat, Role>, free: seq<nat>, data: map<nat, Page>, d: nat, lo: nat, a: nat)
    requires Shape(t0) && Shape(t1) && GrownMap(t0, t1, own, free, data, d, lo, a) && a <= lo
    ensures SameMaps(t0, t1, own)
  {
  }

  lemma GrownAbsent(t0: Tables, t1: Tables, own: map<nat, Role>, free: seq<nat>, data: map<nat, Page>, d: nat, lo: nat, hi: nat, a: nat)
    requires Shape(t0) && Shape(t1) && GrownMap(t0, t1, own, free, data, d, lo, a) && IsDir(own, d)
    requires NoneMapped(t0, d, lo, hi) && lo <= a < hi && a < UPAGES
    ensures Flat(t1, d, a).Absent?
  {
  }

  lemma GrownMore(t0: Tables, t1: Tables, t2: Tables, own0: map<nat, Role>, own1: map<nat, Role>, own2: map<nat, Role>,
                  free0: seq<nat>, free1: seq<nat>, data1: map<nat, Page>, data2: map<nat, Page>, d: nat, lo: nat, a: nat)
    requires Shape(t0) && Owned(t1, own1) && Shape(t2) && lo <= a <= UPAGES && IsDir(own1, d)
    requires GrownMap(t0, t1, own0, free0, data1, d, lo, a) && GrownMap(t1, t2, own1, free1, data2, d, a, a + 1)
    requires Took(own0, own1, free0, free1, d, ToSet(free0))
    requires forall f :: f in own1 && f in data1 ==> f in data2 && data2[f] == data1[f]
    ensures GrownMap(t0, t2, own0, free0, data2, d, lo, a + 1)
  {
    hide Flat;
    forall e, q | IsDir(own0, e) && 0 <= q < PAGES
      ensures if e == d && lo <= q < a + 1 then FreshPage(Flat(t2, e, q), free0, data2) else Flat(t2, e, q) == Flat(t0, e, q)
    {
      assert IsDir(own1, e);
      if e == d && lo <= q < a {
        assert PteOk(t1, own1, e, q);
      }
    }
  }

  // The failed growth is rolled back.
  lemma GrownUndone(t0: Tables, t1: Tables, t2: Tables, t3: Tables, own0: map<nat, Role>, own1: map<nat, Role>, own2: map<nat, Role>,
                    free0: seq<nat>, data1: map<nat, Page>, d: nat, lo: nat, hi: nat, a: nat)
    requires Shape(t0) && Shape(t1) && Shape(t2) && Shape(t3) && a <= hi
    requires GrownMap(t0, t1, own0, free0, data1, d, lo, a) && SameMaps(t1, t2, own1) && Unmapped(t2, t3, own2, d, lo, hi)
    requires NoneMapped(t0, d, lo, hi)
    requires forall f :: f in own0 ==> f in own1 && own1[f] == own0[f]
    requires forall f :: f in own0 ==> f in own2 && own2[f] == own0[f]
    ensures SameMaps(t0, t3, own0)
  {
    hide Flat;
    forall e, q | IsDir(own0, e) && 0 <= q < PAGES ensures Flat(t3, e, q) == Flat(t0, e, q) {
      assert IsDir(own1, e) && IsDir(own2, e);
    }
  }

  lemma OwnBack(t0: Tables, own0: map<nat, Role>, own2: map<nat, Role>, own3: map<nat, Role>, d: nat, lo: nat, hi: nat)
    requires Owned(t0, own0) && NoneMapped(t0, d, lo, hi) && Without(own2, own3, d, lo, hi)
    requires forall f :: f in own0 ==> f in own2 && own2[f] == own0[f]
    ensures forall f :: f in own0 ==> f in own3
  {
    hide Flat;
    forall f | f in own0 ensures !Inside(own0[f], d, lo, hi) {
      assert RoleOk(t0, own0, f);
    }
  }

  lemma NotHeldTwice(f: nat, free: seq<nat>, own: map<nat, Role>, leaked: set<nat>)
    requires f !in Frames(free, own, leaked)
    ensures f !in free && f !in own && f !in leaked
  {
  }

  // Pages lo .. hi - 1 of d are unmapped; all other entries of all directories are as before.
  ghost predicate Unmapped(t0: Tables, t1: Tables, own: map<nat, Role>, d: nat, lo: nat, hi: nat)
    requires Shape(t0) && Shape(t1)
  {
    forall e, q :: IsDir(own, e) && 0 <= q < PAGES ==>
      Flat(t1, e, q) == if e == d && lo <= q < hi then Absent else Flat(t0, e, q)
  }

  predicate Inside(r: Role, d: nat, lo: nat, hi: nat) { r.PageOf? && r.dir == d && lo <= r.page < hi }

  // The frames of those pages, and no others, are out of use.
  ghost predicate Without(own0: map<nat, Role>, own1: map<nat, Role>, d: nat, lo: nat, hi: nat) {
    && (forall f :: f in own1 ==> f in own0 && own1[f] == own0[f] && !Inside(own0[f], d, lo, hi))
    && (forall f :: f in own0 && !Inside(own0[f], d, lo, hi) ==> f in own1)
  }

  lemma UnmappedAlready(t: Tables, own: map<nat, Role>, d: nat, p: nat)
    requires Owned(t, own) && IsDir(own, d) && p < UPAGES && Flat(t, d, p).Absent?
    ensures Unmapped(t, t, own, d, p, p + 1) && Without(own, own, d, p, p + 1)
  {
    hide Flat;
    forall f | f in own ensures !Inside(own[f], d, p, p + 1) {
      assert RoleOk(t, own, f);
    }
  }

  lemma UnmappedOne(t: Tables, own: map<nat, Role>, d: nat, p: nat)
    requires Shape(t) && p < PAGES && d in t && t[d][p / NPTENTRIES].Entry? && t[d][p / NPTENTRIES].frame in t
    requires var t' := WithPte(t, d, p, Absent);
      Shape(t') && forall e, q :: IsDir(own, e) && 0 <= q < PAGES ==> Flat(t', e, q) == if e == d && q == p then Absent else Flat(t, e, q)
    ensures Unmapped(t, WithPte(t, d, p, Absent), own, d, p, p + 1)
  {
    hide Flat, WithPte;
  }

  lemma WithoutOne(t: Tables, own: map<nat, Role>, d: nat, p: nat, f: nat)
    requires Owned(t, own) && IsDir(own, d) && p < UPAGES && f in own && own[f] == PageOf(d, p)
    ensures Without(own, own - {f}, d, p, p + 1) && IsDir(own - {f}, d)
  {
    forall g | g in own && Inside(own[g], d, p, p + 1) ensures g == f {
      assert RoleOk(t, own, g) && RoleOk(t, own, f);
    }
  }

  lemma FreeOwnLess(free: seq<nat>, own: map<nat, Role>, leaked: set<nat>, f: nat)
    requires FreeOk(free, own, leaked) && f in own
    ensures FreeOk(free, own - {f}, leaked) && f !in free && f !in leaked && f != 0
  {
  }

  lemma DataLess(own0: map<nat, Role>, own: map<nat, Role>, data0: map<nat, Page>, data: map<nat, Page>)
    requires DataOk(own0, data0) && forall f :: f in own ==> f in own0 && own0[f] == own[f] && (f in data0 ==> f in data)
    ensures DataOk(own, data)
  {
  }

  lemma UnmappedEmpty(t: Tables, own: map<nat, Role>, d: nat, lo: nat, hi: nat)
    requires Shape(t) && hi <= lo
    ensures Unmapped(t, t, own, d, lo, hi) && Without(own, own, d, lo, hi)
  {
  }

  lemma InUserHalf(a: nat, oldsz: nat)
    requires a * PGSIZE < oldsz <= KERNBASE
    ensures a < UPAGES && a < PageUp(oldsz) <= UPAGES
  {
  }

  lemma UnmappedMore(t0: Tables, t1: Tables, t2: Tables, own0: map<nat, Role>, own1: map<nat, Role>, own2: map<nat, Role>,
                     d: nat, lo: nat, a: nat)
    requires Shape(t0) && Shape(t1) && Shape(t2) && lo <= a
    requires Unmapped(t0, t1, own0, d, lo, a) && Unmapped(t1, t2, own1, d, a, a + 1)
    requires Without(own0, own1, d, lo, a) && Without(own1, own2, d, a, a + 1)
    ensures Unmapped(t0, t2, own0, d, lo, a + 1) && Without(own0, own2, d, lo, a + 1)
  {
    hide Flat;
    forall e, q | IsDir(own0, e) && 0 <= q < PAGES
      ensures Flat(t2, e, q) == if e == d && lo <= q < a + 1 then Absent else Flat(t0, e, q)
    {
      assert IsDir(own1, e);
    }
  }

  // No table: none of the rest of its 1024 pages is mapped, now or before.
  lemma SkipTable(t0: Tables, t: Tables, own0: map<nat, Role>, own: map<nat, Role>, d: nat, lo: nat, hi: nat, a: nat)
    requires Shape(t0) && Owned(t, own) && IsDir(own, d) && a < UPAGES && lo <= a && IsDir(own0, d) && a < hi <= UPAGES
    requires !TableHere(t, d, a) && Unmapped(t0, t, own0, d, lo, a) && Without(own0, own, d, lo, a) && Unmapped(t0, t0, own0, d, hi, a)
    ensures var a' := (a / NPTENTRIES + 1) * NPTENTRIES;
      a < a' <= UPAGES && Unmapped(t0, t, own0, d, lo, a') && Without(own0, own, d, lo, a') && Unmapped(t0, t0, own0, d, hi, a')
  {
    var a' := (a / NPTENTRIES + 1) * NPTENTRIES;
    forall q | a <= q < a' ensures Flat(t, d, q) == Absent {
      assert q / NPTENTRIES == a / NPTENTRIES;
      TableThere(t, own, d, a);
      TableThere(t, own, d, q);
    }
    hide Flat, TableHere;
    forall q | a <= q < a' ensures Flat(t0, d, q) == Absent {
      assert Flat(t, d, q) == Flat(t0, d, q);
    }
    forall f | f in own ensures !Inside(own[f], d, a, a') {
      assert RoleOk(t, own, f);
    }
  }

  // What lies beyond hi was not mapped anyway.
  lemma UnmappedCut(t0: Tables, t: Tables, own0: map<nat, Role>, own: map<nat, Role>, d: nat, lo: nat, hi: nat, a: nat)
    requires Owned(t0, own0) && Shape(t) && lo <= a && hi <= a && IsDir(own0, d)
    requires Unmapped(t0, t, own0, d, lo, a) && Without(own0, own, d, lo, a) && Unmapped(t0, t0, own0, d, hi, a)
    ensures Unmapped(t0, t, own0, d, lo, hi) && Without(own0, own, d, lo, hi)
  {
    hide Flat;
    forall f | f in own0 ensures !Inside(own0[f], d, hi, a) {
      assert RoleOk(t0, own0, f);
    }
    forall f | f in own0 && !Inside(own0[f], d, lo, hi) ensures f in own {
    }
  }

  // The frames among frame .. frame + m - 1 that back user pages.
  function UserFrames(p: nat, m: nat, frame: nat): (s: set<nat>)
    ensures forall f :: f in s <==> frame <= f < frame + m && p + (f - frame) < UPAGES
  {
    if m == 0 then {} else UserFrames(p, m - 1, frame) + if p + m - 1 < UPAGES then {frame + m - 1} else {}
  }

  lemma NoFrames(p: nat, frame: nat)
    ensures UserFrames(p, 0, frame) == {}
  {
  }

  lemma FrameNext(p: nat, m: nat, frame: nat)
    ensures UserFrames(p, m + 1, frame) == UserFrames(p, m, frame) + if p + m < UPAGES then {frame + m} else {}
    ensures frame + m !in UserFrames(p, m, frame)
  {
  }

  lemma FramesUpTo(p: nat, m: nat, n: nat, frame: nat)
    requires m <= n
    ensures UserFrames(p, m, frame) <= UserFrames(p, n, frame)
  {
  }

  lemma MappedNone(t: Tables, own: map<nat, Role>, d: nat, p: nat, frame: nat, perm: nat)
    requires Shape(t)
    ensures Mapped(t, t, own, d, p, 0, frame, perm)
  {
  }

  lemma MappedAt(t0: Tables, t1: Tables, own: map<nat, Role>, d: nat, p: nat, m: nat, frame: nat, perm: nat, q: nat)
    requires Shape(t0) && Shape(t1) && Mapped(t0, t1, own, d, p, m, frame, perm) && IsDir(own, d) && q < PAGES
    ensures Flat(t1, d, q) == if p <= q < p + m then Entry(frame + (q - p), perm) else Flat(t0, d, q)
  {
  }

  lemma MappedSame(t0: Tables, t1: Tables, t2: Tables, own0: map<nat, Role>, own1: map<nat, Role>, d: nat, p: nat, m: nat,
                   frame: nat, perm: nat, free0: seq<nat>, free1: seq<nat>)
    requires Shape(t0) && Shape(t1) && Shape(t2)
    requires Mapped(t0, t1, own0, d, p, m, frame, perm) && SameMaps(t1, t2, own1)
    requires Took(own0, own1, free0, free1, d, UserFrames(p, m, frame))
    ensures Mapped(t0, t2, own0, d, p, m, frame, perm)
  {
    hide Flat;
    forall e, q | IsDir(own0, e) && 0 <= q < PAGES ensures Flat(t2, e, q) == Flat(t1, e, q) {
      assert IsDir(own1, e);
    }
  }

  lemma MappedMore(t0: Tables, t1: Tables, t2: Tables, own0: map<nat, Role>, own1: map<nat, Role>, d: nat, p: nat, m: nat,
                   frame: nat, perm: nat, free0: seq<nat>, free1: seq<nat>)
    requires Shape(t0) && Shape(t1) && Shape(t2)
    requires Mapped(t0, t1, own0, d, p, m, frame, perm) && Mapped(t1, t2, own1, d, p + m, 1, frame + m, perm)
    requires Took(own0, own1, free0, free1, d, UserFrames(p, m, frame))
    ensures Mapped(t0, t2, own0, d, p, m + 1, frame, perm)
  {
    hide Flat;
    forall e, q | IsDir(own0, e) && 0 <= q < PAGES
      ensures Flat(t2, e, q) == if e == d && p <= q < p + m + 1 then Entry(frame + (q - p), perm) else Flat(t0, e, q)
    {
      assert IsDir(own1, e);
    }
  }

  // A failed turn added no page.
  lemma TookNarrow(own0: map<nat, Role>, own1: map<nat, Role>, own2: map<nat, Role>, free0: seq<nat>, free1: seq<nat>, free2: seq<nat>,
                   d: nat, h: set<nat>, p: nat, f: nat)
    requires Took(own0, own2, free0, free2, d, h + if p < UPAGES then {f} else {})
    requires p < UPAGES ==> f !in own2
    ensures Took(own0, own2, free0, free2, d, h)
  {
    forall g | g in own2 && g !in own0 ensures Gained(own2[g], free0, d, h, g) {
      assert Gained(own2[g], free0, d, h + if p < UPAGES then {f} else {}, g);
    }
  }

  lemma HeldKept(own0: map<nat, Role>, own1: map<nat, Role>, free0: seq<nat>, free1: seq<nat>, d: nat, h: set<nat>)
    requires Took(own0, own1, free0, free1, d, h)
    ensures forall f :: f !in h && f !in free0 && f !in own0 ==> f !in free1 && f !in own1
  {
    forall f | f in own1 && f !in own0 ensures f in free0 || f in h {
      assert Gained(own1[f], free0, d, h, f);
    }
  }

  // Pages p .. p + n - 1 of d map to consecutive frames from `frame` on; all else is as before.
  ghost predicate Mapped(t0: Tables, t1: Tables, own: map<nat, Role>, d: nat, p: nat, n: nat, frame: nat, perm: nat)
    requires Shape(t0) && Shape(t1)
  {
    forall e, q :: IsDir(own, e) && 0 <= q < PAGES ==>
      Flat(t1, e, q) == if e == d && p <= q < p + n then Entry(frame + (q - p), perm) else Flat(t0, e, q)
  }

  lemma MappedOne(t0: Tables, t1: Tables, own0: map<nat, Role>, own1: map<nat, Role>, d: nat, p: nat, frame: nat, perm: nat)
    requires Shape(t0) && Shape(t1) && SameMaps(t0, t1, own0) && p < PAGES
    requires forall f :: f in own0 ==> f in own1 && own1[f] == own0[f]
    requires d in t1 && t1[d][p / NPTENTRIES].Entry? && t1[d][p / NPTENTRIES].frame in t1
    requires var t := WithPte(t1, d, p, Entry(frame, perm));
      Shape(t) && forall e, q :: IsDir(own1, e) && 0 <= q < PAGES ==> Flat(t, e, q) == if e == d && q == p then Entry(frame, perm) else Flat(t1, e, q)
    ensures Mapped(t0, WithPte(t1, d, p, Entry(frame, perm)), own0, d, p, 1, frame, perm)
  {
    hide Flat, WithPte;
    forall e, q | IsDir(own0, e) && 0 <= q < PAGES
      ensures Flat(WithPte(t1, d, p, Entry(frame, perm)), e, q) == if e == d && p <= q < p + 1 then Entry(frame + (q - p), perm) else Flat(t0, e, q)
    {
      assert IsDir(own1, e);
    }
  }

  lemma StillDir(own0: map<nat, Role>, own1: map<nat, Role>, free0: seq<nat>, free1: seq<nat>, d: nat, held: set<nat>)
    requires Took(own0, own1, free0, free1, d, held)
    ensures forall e :: IsDir(own0, e) ==> IsDir(own1, e)
    ensures forall f :: f in own0 ==> f in own1 && own1[f] == own0[f]
  {
  }

  lemma TookMore(own0: map<nat, Role>, own1: map<nat, Role>, free0: seq<nat>, free1: seq<nat>, d: nat, h: set<nat>, h': set<nat>)
    requires Took(own0, own1, free0, free1, d, h) && h <= h'
    ensures Took(own0, own1, free0, free1, d, h')
  {
    forall f | f in own1 && f !in own0 ensures Gained(own1[f], free0, d, h', f) {
      assert Gained(own1[f], free0, d, h, f);
    }
  }

  lemma TookPage(own0: map<nat, Role>, own1: map<nat, Role>, free0: seq<nat>, free1: seq<nat>, d: nat, f: nat, p: nat)
    requires Took(own0, own1, free0, free1, d, {f}) && f !in own1
    ensures Took(own0, own1[f := PageOf(d, p)], free0, free1, d, {f})
  {
    forall g | g in own1[f := PageOf(d, p)] && g !in own0 ensures Gained(own1[f := PageOf(d, p)][g], free0, d, {f}, g) {
      if g != f { assert Gained(own1[g], free0, d, {f}, g); }
    }
  }

  // A held frame stays held while tables are taken from the free list.
  lemma HeldStill(own0: map<nat, Role>, own1: map<nat, Role>, free0: seq<nat>, free1: seq<nat>, d: nat, leaked: set<nat>, f: nat)
    requires Took(own0, own1, free0, free1, d, {})
    ensures f !in free0 && f !in own0 ==> f !in free1 && f !in own1
  {
    if f in own1 && f !in own0 {
      assert Gained(own1[f], free0, d, {}, f);
    }
  }

  lemma FlatSameAt(t0: Tables, t1: Tables, own: map<nat, Role>, d: nat, p: nat)
    requires Shape(t0) && Shape(t1) && SameMaps(t0, t1, own) && IsDir(own, d) && p < PAGES
    ensures Flat(t1, d, p) == Flat(t0, d, p)
  {
  }

  lemma HereMeans(tables: Tables, d: nat, p: nat)
    requires Shape(tables) && p < PAGES && TableHere(tables, d, p)
    ensures d in tables && tables[d][p / NPTENTRIES].Entry? && tables[d][p / NPTENTRIES].frame in tables
  {
  }

  lemma DataSame(own: map<nat, Role>, own': map<nat, Role>, data: map<nat, Page>)
    requires DataOk(own, data) && forall f :: f in own' && own'[f].PageOf? ==> (f in own && own[f] == own'[f]) || f in data
    ensures DataOk(own', data)
  {
  }
}
