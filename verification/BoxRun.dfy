// Runs of faults, allocations and deletions (krlvadrsmem.c): what page-aligned deletions guarantee, and
// what one that is not aligned does to page table and boxes.
module BoxRun {
  import opened Params
  import opened BoxBooks
  import opened BoxState
  import opened BoxAligned
  import AddrMap
  import VAdrs

  datatype Op =
    | Del(k: nat, start: nat, len: nat, avail: bool)
    | New(k: nat, start: nat, len: nat, merge: bool)
    | Fault(a: nat, page: Option<nat>, box: Option<nat>, mapped: bool)
    | Others(mem: map<nat, Box>, cache: seq<nat>, theirs: map<nat, Box>)

  ghost predicate OpOk(s: State, max: nat, op: Op) {
    match op
    case Del(k, start, len, _) => DeleteOk(s, k, start, len)
    case New(k, start, len, merge) => NewOk(s, k, start, len, merge)
    case Fault(a, page, box, _) => FaultOk(s, a, page, box)
    case Others(mem, cache, theirs) => OthersOk(s, max, mem, cache, theirs)
  }

  function Step(s: State, max: nat, op: Op): State
    requires OpOk(s, max, op)
  {
    match op
    case Del(k, start, len, avail) => DeleteStep(s, max, k, start, len, avail).0
    case New(k, start, len, merge) => NewStep(s, k, start, len, merge)
    case Fault(a, page, box, mapped) => FaultStep(s, a, page, box, mapped).0
    case Others(mem, cache, theirs) => OthersStep(s, mem, cache, theirs)
  }

  ghost predicate Run(s: State, max: nat, ops: seq<Op>, t: State)
    decreases |ops|
  {
    if ops == [] then s == t else OpOk(s, max, ops[0]) && Run(Step(s, max, ops[0]), max, ops[1..], t)
  }

  // Deletions start on page bounds, and so do those of the other address spaces, which then send no box
  // that lists a page to the cache.
  ghost predicate Aligned(op: Op) {
    (op.Del? ==> op.start % PAGE == 0) && (op.Others? ==> Clean(op.mem, op.cache))
  }

  // Counts and the cache stay in order whatever the deletions.
  lemma {:induction false} RunSound(s: State, max: nat, ops: seq<Op>, t: State)
    requires Sound(s, max) && Run(s, max, ops, t)
    ensures Sound(t, max)
    decreases |ops|
  {
    if ops != [] {
      match ops[0] {
        case Del(k, start, len, avail) => DeleteSound(s, max, k, start, len, avail);
        case New(k, start, len, merge) => NewSound(s, max, k, start, len, merge);
        case Fault(a, page, box, mapped) => FaultSound(s, max, a, page, box, mapped);
        case Others(mem, cache, theirs) => OthersSound(s, max, mem, cache, theirs);
      }
      hide Sound, OpOk, Step;
      RunSound(Step(s, max, ops[0]), max, ops[1..], t);
    }
  }

  // If every deletion starts on a page bound, page table, lists and counts agree after every run, and no
  // box comes to the cache with a page in its list.
  lemma {:induction false} RunAgrees(s: State, max: nat, ops: seq<Op>, t: State)
    requires Agree(s, max) && Run(s, max, ops, t) && forall j :: 0 <= j < |ops| ==> Aligned(ops[j])
    ensures Agree(t, max)
    decreases |ops|
  {
    if ops != [] {
      assert Aligned(ops[0]);
      match ops[0] {
        case Del(k, start, len, avail) => DeleteAgrees(s, max, k, start, len, avail);
        case New(k, start, len, merge) => NewAgrees(s, max, k, start, len, merge);
        case Fault(a, page, box, mapped) => FaultAgrees(s, max, a, page, box, mapped);
        case Others(mem, cache, theirs) => OthersAgrees(s, max, mem, cache, theirs);
      }
      hide Agree, OpOk, Step;
      RunAgrees(Step(s, max, ops[0]), max, ops[1..], t);
    }
  }

  // A new address space, with no page mapped yet.
  function Fresh(v: seq<Area>): State { State(v, map[], {}, [], map[], map[], map[]) }

  lemma FreshAgrees(v: seq<Area>, max: nat)
    requires Sorted(v) && OnPages(v) && forall k :: 0 <= k < |v| ==> v[k].box == 0
    ensures Agree(Fresh(v), max)
  {
  }

  // ---- deletions that do not start on a page bound ----

  // The loop looks at every page of the range but, from an unaligned start, the last one.
  lemma LastPageMissed(start: nat, len: nat)
    requires len > 0 && len % PAGE == 0
    ensures var last := (start + len - 1) / PAGE;
      Touched(start, len) == (if start % PAGE == 0 then Visited(start, len) else Visited(start, len) + {last})
      && (start % PAGE != 0 ==> last !in Visited(start, len))
  {
    LastPage(start, len);
  }

  lemma LastPage(start: nat, len: nat)
    requires len > 0 && len % PAGE == 0
    ensures (start + len - 1) / PAGE == start / PAGE + len / PAGE - if start % PAGE == 0 then 1 else 0
    ensures len / PAGE >= 1
  {
    var q, r := start / PAGE, start % PAGE;
    var n := len / PAGE;
    assert start == PAGE * q + r && len == PAGE * n;
    if r == 0 {
      assert start + len - 1 == PAGE * (q + n - 1) + (PAGE - 1);
    } else {
      assert start + len - 1 == PAGE * (q + n) + (r - 1);
    }
  }

  // A deletion unmaps exactly the pages its range lies in if and only if it starts on a page bound or the
  // last of these pages is not mapped.
  lemma UnmapsRangeIff(s: State, start: nat, len: nat)
    requires len > 0 && len % PAGE == 0
    ensures s.mmu - Visited(start, len) == s.mmu - Touched(start, len)
       <==> start % PAGE == 0 || (start + len - 1) / PAGE !in s.mmu
  {
    LastPageMissed(start, len);
    hide Visited, Touched;
    var last := (start + len - 1) / PAGE;
    if start % PAGE != 0 && last in s.mmu {
      assert last in s.mmu - Visited(start, len) && last !in s.mmu - Touched(start, len);
    }
    if start % PAGE != 0 && last !in s.mmu {
      assert s.mmu - (Visited(start, len) + {last}) == s.mmu - Visited(start, len);
    }
  }

  // When the last area of box b goes as a whole, the box comes to the cache with an empty list if and only
  // if every page in the list was behind a page that the loop looked at.
  lemma CachedListIff(s: State, max: nat, k: nat, start: nat, len: nat, avail: bool)
    requires Sound(s, max) && DeleteOk(s, k, start, len) && |s.cache| < max
    requires var a := s.areas[k]; a.start == start && a.end == start + len && a.box != 0 && a.box in s.mem && s.mem[a.box].cont == 1
    ensures var b, t := s.areas[k].box, DeleteStep(s, max, k, start, len, avail).0;
      && t.cache == [b] + s.cache && b in t.mem
      && (t.mem[b].msas == {} <==> s.mem[b].msas <= Frames(s.mmu, Visited(start, len)))
  {
    var b, ps := s.areas[k].box, Visited(start, len);
    var fs := Frames(s.mmu, ps);
    DroppedFacts(s.mem, b, fs);
    var u := Unmapped(s, b, ps);
    hide Sound, Dropped, Frames, Visited;
    assert u.cache == s.cache && b in u.mem && u.mem[b].cont == 1 && u.mem[b].msas == s.mem[b].msas - fs;
    NoneLeft(s.mem[b].msas, fs);
    hide Unmapped, Replaced, Pieces;
    assert Put(u, max, b).cache == [b] + s.cache;
  }

  lemma NoneLeft(x: set<nat>, y: set<nat>)
    ensures x - y == {} <==> x <= y
  {
    if x - y == {} {
      forall e | e in x ensures e in y {
        assert e !in x - y;
      }
    }
  }

  // ---- a run in which they disagree ----

  function TwoAreas(): seq<Area> { [Area(0x1000, 0x5000, 0), Area(0x7fff_c000_0000, USER_END, 0)] }

  // The areas after the two deletions that make room, and with the area allocated there.
  function CutAreas(): seq<Area> {
    [Area(0x1000, 0x1800, 0), Area(0x2800, 0x5000, 0), Area(0x7fff_c000_0000, 0x7fff_c000_0800, 0), Area(0x7fff_c000_1800, USER_END, 0)]
  }

  function NewAreas(b: nat): seq<Area> { [CutAreas()[0], Area(0x1800, 0x2800, b)] + CutAreas()[1..] }

  // The states after the fault, after the area is deleted, and after another area takes its box.
  function Faulted(): State { State(NewAreas(1), map[1 := Box(1, {9})], {1}, [], map[], map[2 := 9], map[9 := 2]) }

  function Deleted(): State { State(CutAreas(), map[1 := Box(0, {9})], {}, [1], map[], map[2 := 9], map[9 := 2]) }

  function Taken(): State {
    State(CutAreas()[0 := Area(0x1000, 0x1800, 1)], map[1 := Box(1, {8})], {1}, [], map[], map[2 := 9, 1 := 8], map[9 := 2, 8 := 1])
  }

  // Address a is mapped, although it lies in no area and no box lists the physical page behind it.
  predicate Forgotten(s: State, a: nat) {
    && a / PAGE in s.mmu && (forall k :: 0 <= k < |s.areas| ==> !Covers(s.areas[k], a))
    && forall b :: b in s.mem ==> s.mmu[a / PAGE] !in s.mem[b].msas
  }

  // In a fresh address space two unaligned deletions make room for an area that begins inside a page.  A
  // page of it is mapped; when the area is deleted, its last page stays mapped, and its box comes to the
  // cache with that page in its list.  The next area that takes the box drops the list: the page stays mapped
  // at an address without an area, and no box knows of the physical page.
  lemma PageForgotten()
    ensures Run(Fresh(TwoAreas()), 1, [Del(0, 0x1800, 0x1000, true), Del(2, 0x7fff_c000_0800, 0x1000, true), New(0, 0x1800, 0x1000, false),
                                       Fault(0x2000, Some(9), Some(1), true), Del(1, 0x1800, 0x1000, true)], Deleted())
    ensures Run(Deleted(), 1, [Fault(0x1000, Some(8), None, true)], Taken())
    ensures Forgotten(Taken(), 0x2000)
  {
    var s0 := Fresh(TwoAreas());
    var s1 := Fresh([Area(0x1000, 0x1800, 0), Area(0x2800, 0x5000, 0), Area(0x7fff_c000_0000, USER_END, 0)]);
    var s2 := Fresh(CutAreas());
    var s3 := Fresh(NewAreas(0));
    FirstCut();
    SecondCut();
    AreaPlaced();
    PageMapped();
    PageKept();
    BoxTaken();
    StillMapped();
    hide Step, OpOk, Fresh, Deleted, Taken, Faulted, NewAreas, CutAreas, TwoAreas, Forgotten;
    OneStep(Deleted(), 1, Fault(0x1000, Some(8), None, true), Taken());
    FiveSteps(s0, s1, s2, s3, Faulted(), Deleted(), 1, Del(0, 0x1800, 0x1000, true), Del(2, 0x7fff_c000_0800, 0x1000, true),
              New(0, 0x1800, 0x1000, false), Fault(0x2000, Some(9), Some(1), true), Del(1, 0x1800, 0x1000, true));
    hide Run;
  }

  lemma OneStep(s: State, max: nat, op: Op, t: State)
    requires OpOk(s, max, op) && Step(s, max, op) == t
    ensures Run(s, max, [op], t)
  {
    assert Run(t, max, [], t);
    hide Step, OpOk, Run;
    RunCons(s, max, op, [], t);
  }

  lemma FiveSteps(s0: State, s1: State, s2: State, s3: State, s4: State, s5: State, max: nat, a: Op, b: Op, c: Op, d: Op, e: Op)
    requires OpOk(s0, max, a) && Step(s0, max, a) == s1 && OpOk(s1, max, b) && Step(s1, max, b) == s2
    requires OpOk(s2, max, c) && Step(s2, max, c) == s3 && OpOk(s3, max, d) && Step(s3, max, d) == s4
    requires OpOk(s4, max, e) && Step(s4, max, e) == s5
    ensures Run(s0, max, [a, b, c, d, e], s5)
  {
    hide Step, OpOk, Run;
    OneStep(s4, max, e, s5);
    RunCons(s3, max, d, [e], s5);
    RunCons(s2, max, c, [d, e], s5);
    RunCons(s1, max, b, [c, d, e], s5);
    RunCons(s0, max, a, [b, c, d, e], s5);
    assert [a] + [b, c, d, e] == [a, b, c, d, e];
  }

  lemma StillMapped()
    ensures Forgotten(Taken(), 0x2000)
  {
    assert 0x2000 / PAGE == 2;
  }

  lemma FirstCut()
    ensures var s, t := Fresh(TwoAreas()), Fresh([Area(0x1000, 0x1800, 0), Area(0x2800, 0x5000, 0), Area(0x7fff_c000_0000, USER_END, 0)]);
      OpOk(s, 1, Del(0, 0x1800, 0x1000, true)) && Step(s, 1, Del(0, 0x1800, 0x1000, true)) == t
  {
    var s, t := Fresh(TwoAreas()), Fresh([Area(0x1000, 0x1800, 0), Area(0x2800, 0x5000, 0), Area(0x7fff_c000_0000, USER_END, 0)]);
    Cut(s, 0, 0x1800, 0x1000, t.areas);
  }

  lemma SecondCut()
    ensures var s, t := Fresh([Area(0x1000, 0x1800, 0), Area(0x2800, 0x5000, 0), Area(0x7fff_c000_0000, USER_END, 0)]), Fresh(CutAreas());
      OpOk(s, 1, Del(2, 0x7fff_c000_0800, 0x1000, true)) && Step(s, 1, Del(2, 0x7fff_c000_0800, 0x1000, true)) == t
  {
    var s, t := Fresh([Area(0x1000, 0x1800, 0), Area(0x2800, 0x5000, 0), Area(0x7fff_c000_0000, USER_END, 0)]), Fresh(CutAreas());
    Cut(s, 2, 0x7fff_c000_0800, 0x1000, t.areas);
  }

  lemma AreaPlaced()
    ensures var s, t := Fresh(CutAreas()), Fresh(NewAreas(0));
      OpOk(s, 1, New(0, 0x1800, 0x1000, false)) && Step(s, 1, New(0, 0x1800, 0x1000, false)) == t
  {
    assert Replaced(CutAreas(), 0, Grown(CutAreas()[0], 0x1800, 0x1000, false)) == NewAreas(0);
  }

  lemma PageMapped()
    ensures var s, op := Fresh(NewAreas(0)), Fault(0x2000, Some(9), Some(1), true);
      OpOk(s, 1, op) && Step(s, 1, op) == Faulted()
  {
    var s := Fresh(NewAreas(0));
    CoverAt(s.areas, 0x2000);
    assert WithBox(s, 1, Some(1)) == Some(Assigned(s, 1, 1));
    var t := Assigned(s, 1, 1);
    assert t.areas == NewAreas(1);
    MapFirst(t, 1, 2, 9);
    hide FirstCover, WithBox, Assigned, NewAreas, Mapped;
  }

  // The first page goes into the list of a new box.
  lemma MapFirst(t: State, k: nat, p: nat, f: nat)
    requires k < |t.areas| && t.areas[k].box == 1 && 1 in t.mem && t.mem[1] == Box(1, {})
    ensures Mapped(t, k, p, f) == t.(mem := t.mem[1 := Box(1, {f})], mmu := t.mmu[p := f], rmap := t.rmap[f := p])
  {
    assert {} + {f} == {f};
  }

  lemma PageKept()
    ensures var op := Del(1, 0x1800, 0x1000, true); OpOk(Faulted(), 1, op) && Step(Faulted(), 1, op) == Deleted()
  {
    assert NewAreas(1)[..1] + NewAreas(1)[2..] == CutAreas();
    WholeOne(Faulted(), Deleted());
  }

  lemma BoxTaken()
    ensures var op := Fault(0x1000, Some(8), None, true); OpOk(Deleted(), 1, op) && Step(Deleted(), 1, op) == Taken()
  {
    var s := Deleted();
    assert FirstCover(s.areas, 0, 0x1000) == Some(0);
    assert s.cache[1..] == [];
    var t := Assigned(s.(cache := []), 0, 1);
    assert WithBox(s, 0, None) == Some(t);
    assert t.mem == map[1 := Box(1, {})];
    MapFirst(t, 0, 1, 8);
    hide FirstCover, WithBox, Mapped;
    assert t.mem[1 := Box(1, {8})] == map[1 := Box(1, {8})];
  }

  lemma RunCons(s: State, max: nat, op: Op, rest: seq<Op>, t: State)
    requires OpOk(s, max, op) && Run(Step(s, max, op), max, rest, t)
    ensures Run(s, max, [op] + rest, t)
  {
    assert ([op] + rest)[1..] == rest;
  }

  // The middle of an area without a box goes while nothing is mapped.
  lemma Cut(s: State, k: nat, start: nat, len: nat, v: seq<Area>)
    requires s.mmu == map[] && s.rmap == map[] && k < |s.areas| && s.areas[k].box == 0
    requires s.areas[k].start < start && start + len < s.areas[k].end
    requires v == Replaced(s.areas, k, Pieces(s.areas[k], start, len))
    ensures DeleteStep(s, 1, k, start, len, true) == (s.(areas := v), true)
  {
    hide Visited, Replaced, Pieces;
    assert Frames(s.mmu, Visited(start, len)) == {};
    assert s.mmu - Visited(start, len) == s.mmu && s.rmap - {} == s.rmap;
  }

  lemma CoverAt(v: seq<Area>, a: nat)
    requires |v| > 1 && !Covers(v[0], a) && Covers(v[1], a)
    ensures FirstCover(v, 0, a) == Some(1)
  {
    assert FirstCover(v, 1, a) == Some(1);
  }

  lemma WholeOne(s: State, t: State)
    requires |s.areas| == 5 && s.areas[1] == Area(0x1800, 0x2800, 1)
    requires s == State(s.areas, map[1 := Box(1, {9})], {1}, [], map[], map[2 := 9], map[9 := 2])
    requires t == State(s.areas[..1] + s.areas[2..], map[1 := Box(0, {9})], {}, [1], map[], map[2 := 9], map[9 := 2])
    ensures DeleteStep(s, 1, 1, 0x1800, 0x1000, true) == (t, true)
  {
    NothingUnmapped(s);
    hide Visited, Unmapped;
    assert Pieces(s.areas[1], 0x1800, 0x1000) == [];
    assert Replaced(s.areas, 1, []) == s.areas[..1] + s.areas[2..];
    PutOne(s);
    hide Put, Replaced, Pieces;
  }

  lemma PutOne(s: State)
    requires s.mem == map[1 := Box(1, {9})] && s.head == {1} && s.cache == []
    ensures Put(s, 1, 1) == s.(mem := map[1 := Box(0, {9})], head := {}, cache := [1])
  {
    assert s.mem[1 := Box(0, {9})] == map[1 := Box(0, {9})];
    assert {1} - {1} == {};
    assert [1] + s.cache == [1];
  }

  lemma NothingUnmapped(s: State)
    requires s.mem == map[1 := Box(1, {9})] && s.mmu == map[2 := 9]
    ensures Unmapped(s, 1, Visited(0x1800, 0x1000)) == s
  {
    var ps := Visited(0x1800, 0x1000);
    assert 2 !in ps;
    hide Visited;
    var none: set<nat> := {};
    assert Frames(s.mmu, ps) == none;
    assert s.mmu - ps == s.mmu && s.rmap - none == s.rmap;
    assert s.mem[1].(msas := s.mem[1].msas - none) == s.mem[1];
    assert Dropped(s.mem, 1, none) == s.mem;
  }

  function Iv(start: nat, end: nat, ty: nat): AddrMap.Iv { AddrMap.Iv(start, end, ty, 0) }

  // The address-space list at the beginning, after each deletion, and with the new area.
  function Ivs(n: nat): seq<AddrMap.Iv> {
    if n == 0 then [Iv(0x1000, 0x5000, 0), Iv(0x7fff_c000_0000, USER_END, 0)]
    else if n == 1 then [Iv(0x1000, 0x1800, 0), Iv(0x2800, 0x5000, 0), Iv(0x7fff_c000_0000, USER_END, 0)]
    else if n == 2 then [Iv(0x1000, 0x1800, 0), Iv(0x2800, 0x5000, 0), Iv(0x7fff_c000_0000, 0x7fff_c000_0800, 0),
                         Iv(0x7fff_c000_1800, USER_END, 0)]
    else [Iv(0x1000, 0x1800, 0), Iv(0x1800, 0x2800, 7), Iv(0x2800, 0x5000, 0), Iv(0x7fff_c000_0000, 0x7fff_c000_0800, 0),
          Iv(0x7fff_c000_1800, USER_END, 0)]
  }

  // The requests of that run are those that vma_del_vadrs and vma_new_vadrs serve in these areas, the hint
  // being where the deletions left it.
  lemma ServedSo()
    ensures VAdrs.DelStep(Ivs(0), VAdrs.Request(0x1800, 0x1000, true)) == Ivs(1)
    ensures VAdrs.DelStep(Ivs(1), VAdrs.Request(0x7fff_c000_0800, 0x1000, true)) == Ivs(2)
    ensures VAdrs.Choice(Ivs(2), Some(3), 0, 0x1000, USER_END) == Some(0)
    ensures AddrMap.Placed(Ivs(2), 0, 0, 0x1000, 7, 0) == Ivs(3)
    ensures VAdrs.DelStep(Ivs(3), VAdrs.Request(0x1800, 0x1000, true)) == Ivs(2)
  {
    DelServed(0, 0x1800, 0);
    DelServed(1, 0x7fff_c000_0800, 2);
    DelServed(3, 0x1800, 1);
    NewServed();
    hide VAdrs.DelStep, VAdrs.Choice, AddrMap.Placed, Ivs;
  }

  lemma DelServed(n: nat, start: nat, k: nat)
    requires (n == 0 && start == 0x1800 && k == 0) || (n == 1 && start == 0x7fff_c000_0800 && k == 2) || (n == 3 && start == 0x1800 && k == 1)
    ensures VAdrs.DelStep(Ivs(n), VAdrs.Request(start, 0x1000, true)) == Ivs(if n == 3 then 2 else n + 1)
  {
    InOrder(Ivs(n));
    DelHere(Ivs(n), start, k);
    hide AddrMap.Ordered, VAdrs.DelStep;
    assert AddrMap.Deleted(Ivs(n), k, start, 0x1000) == Ivs(if n == 3 then 2 else n + 1);
  }

  lemma DelHere(v: seq<AddrMap.Iv>, start: nat, k: nat)
    requires AddrMap.Ordered(v, USER_END) && k < |v| && AddrMap.Inside(v[k], start, 0x1000) && VAdrs.Asks(start, 0x1000)
    ensures VAdrs.DelStep(v, VAdrs.Request(start, 0x1000, true)) == AddrMap.Deleted(v, k, start, 0x1000)
  {
    VAdrs.OnlyInside(v, USER_END, start, 0x1000, k);
    hide AddrMap.Ordered, AddrMap.Deleted;
  }

  lemma NewServed()
    ensures VAdrs.Choice(Ivs(2), Some(3), 0, 0x1000, USER_END) == Some(0)
    ensures AddrMap.Placed(Ivs(2), 0, 0, 0x1000, 7, 0) == Ivs(3)
  {
    assert AddrMap.Fits(Ivs(2), 0, 0, 0x1000, USER_END) && !AddrMap.Fits(Ivs(2), 3, 0, 0x1000, USER_END);
  }

  lemma InOrder(v: seq<AddrMap.Iv>)
    requires (forall k :: 0 <= k < |v| ==> v[k].start < v[k].end <= USER_END)
    requires forall k :: 0 < k < |v| ==> v[k - 1].end <= v[k].start
    ensures AddrMap.Ordered(v, USER_END)
  {
  }
}
