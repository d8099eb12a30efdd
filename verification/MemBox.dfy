// Memory boxes of a Cosmos address space (krlvadrsmem.c): page faults fill them, deletions empty them,
// splitting an area shares one, and unused boxes go to a bounded cache.  Each method makes the step of
// the same name in BoxState.
module MemBox {
  import opened Params
  import opened BoxBooks
  import opened BoxState
  import opened BoxAligned
  import BoxRun

  class Space {
    var areas: seq<Area>
    var mem: map<nat, Box>
    var head: set<nat>         // kbm_kmbhead: the boxes in use, as far as they are this space's
    var kmbnr: int
    var cache: seq<nat>        // kbm_cachehead
    var cachenr: nat
    const cachemax: nat
    var mmu: map<nat, nat>     // what hal_mmu_transform set up
    ghost var rmap: map<nat, nat>
    ghost var theirs: map<nat, Box>   // the boxes that other address spaces use

    constructor (v: seq<Area>, max: nat)
      requires Sorted(v) && forall k :: 0 <= k < |v| ==> v[k].box == 0
      ensures Valid() && St() == BoxRun.Fresh(v) && cachemax == max
      ensures OnPages(v) ==> Agree(St(), max)
    {
      areas, mem, head, kmbnr, cache, cachenr, cachemax := v, map[], {}, 0, [], 0, max;
      mmu, rmap, theirs := map[], map[], map[];
      new;
      if OnPages(v) {
        BoxRun.FreshAgrees(v, max);
      }
    }

    ghost function St(): State
      reads this
    {
      State(areas, mem, head, cache, theirs, mmu, rmap)
    }

    ghost predicate Counters()
      reads this
    {
      cachenr == |cache| && kmbnr == |head| + |theirs|
    }

    ghost predicate Valid()
      reads this
    {
      Sound(St(), cachemax) && Counters()
    }

    // The box manager is shared: other address spaces run, and leave the boxes in use here alone.
    method OthersRan(mem': map<nat, Box>, cache': seq<nat>, nr: int, ghost theirs': map<nat, Box>)
      requires Valid() && OthersOk(St(), cachemax, mem', cache', theirs') && nr == |head| + |theirs'|
      modifies this`mem, this`cache, this`cachenr, this`kmbnr, this`theirs
      ensures Valid() && St() == OthersStep(old(St()), mem', cache', theirs')
      ensures old(Agree(St(), cachemax)) && Clean(mem', cache') ==> Agree(St(), cachemax)
    {
      OthersFacts(St(), cachemax, mem', cache', theirs');
      hide Sound, OthersOk, Agree, Clean;
      mem, cache, cachenr, kmbnr, theirs := mem', cache', |cache'|, nr, theirs';
    }

    // knl_get_kvmemcbox: from the cache, or new if avail names one.  0 stands for NULL.
    method GetBox(avail: Option<nat>) returns (b: nat)
      requires Counters() && 0 !in cache && (forall c :: c in cache ==> c !in head)
      requires avail.Some? ==> avail.value != 0 && avail.value !in head
      modifies this`mem, this`head, this`kmbnr, this`cache, this`cachenr
      ensures Counters()
      ensures b == if old(cache) != [] then old(cache)[0] else if avail.Some? then avail.value else 0
      ensures b == 0 ==> St() == old(St())
      ensures b != 0 ==> mem == old(mem)[b := Box(1, {})] && head == old(head) + {b}
                         && cache == if old(cache) != [] then old(cache)[1..] else []
    {
      if 0 < cachenr {
        b := cache[0];
        assert b in cache;
        cache := cache[1..];
        cachenr := cachenr - 1;
      } else {
        if avail.None? {
          return 0;
        }
        b := avail.value;
      }
      mem := mem[b := Box(1, {})];
      head := head + {b};
      kmbnr := kmbnr + 1;
    }

    // knl_put_kvmemcbox: one user less; the last one sends the box to the cache or frees it.
    method PutBox(b: nat) returns (ok: bool)
      requires Counters() && (b != 0 ==> b in head && b in mem)
      modifies this`mem, this`head, this`kmbnr, this`cache, this`cachenr
      ensures Counters() && (ok <==> b != 0)
      ensures St() == Put(old(St()), cachemax, b)
    {
      if b == 0 {
        return false;
      }
      mem := mem[b := mem[b].(cont := mem[b].cont - 1)];
      if mem[b].cont >= 1 {
        return true;
      }
      assert |head - {b}| == |head| - 1;
      if cachenr >= cachemax {
        head := head - {b};
        mem := mem - {b};
        assert mem == old(mem) - {b};
        kmbnr := kmbnr - 1;
        return true;
      }
      head := head - {b};
      cache := [b] + cache;
      cachenr := cachenr + 1;
      kmbnr := kmbnr - 1;
      ok := true;
    }

    // vma_del_usermsa: the physical page leaves the box's list.
    method DelUserMsa(b: nat, f: nat) returns (ok: bool)
      requires b != 0 ==> b in mem
      modifies this`mem
      ensures mem == Dropped(old(mem), b, {f})
      ensures ok <==> b != 0 && f in old(mem)[b].msas
    {
      if b == 0 {
        return false;
      }
      if f in mem[b].msas {
        mem := mem[b := mem[b].(msas := mem[b].msas - {f})];
        return true;
      }
      assert mem[b].(msas := mem[b].msas - {f}) == mem[b];
      return false;
    }

    // One turn of vma_del_unmapping.
    method UnmapPage(b: nat, p: nat) returns (ok: bool)
      requires b != 0 ==> b in mem
      modifies this`mem, this`mmu, this`rmap
      ensures var t := old(St());
        St() == if p in t.mmu then t.(mmu := t.mmu - {p}, rmap := t.rmap - {t.mmu[p]}, mem := Dropped(t.mem, b, {t.mmu[p]})) else t
      ensures b != 0 ==> b in mem
      ensures ok <==> b == 0 || p !in old(mmu) || old(mmu)[p] in old(mem)[b].msas
    {
      ok := true;
      if p in mmu {
        var phyadrs := mmu[p];
        mmu := mmu - {p};
        rmap := rmap - {phyadrs};
        if b != 0 {
          ok := DelUserMsa(b, phyadrs);
        }
      }
    }

    // vma_del_unmapping: every 4096 bytes from start on, the page there is unmapped and given back.
    method Unmap(b: nat, start: nat, len: nat) returns (rets: bool)
      requires len > 0 && len % PAGE == 0 && (b != 0 ==> b in mem)
      modifies this`mem, this`mmu, this`rmap
      ensures St() == Unmapped(old(St()), b, Visited(start, len))
      ensures mmu == old(mmu) - Touched(start, len) <==> start % PAGE == 0 || (start + len - 1) / PAGE !in old(mmu)
    {
      rets := Sweep(b, start, len);
      UnmappedMmu(old(St()), b, Visited(start, len));
      BoxRun.UnmapsRangeIff(old(St()), start, len);
    }

    // The loop of vma_del_unmapping_phyadrs.
    method Sweep(b: nat, start: nat, len: nat) returns (rets: bool)
      requires len % PAGE == 0 && (b != 0 ==> b in mem)
      modifies this`mem, this`mmu, this`rmap
      ensures St() == Unmapped(old(St()), b, Visited(start, len))
    {
      ghost var s, n, sp, pages := St(), 0, PageOf(start), PageOf(len);
      rets := true;
      UnmappedNone(s, b, sp);
      VisitedIs(start, len);
      hide Unmapped, Row, Dropped, Visited, PageOf;
      var vadrs := start;
      while vadrs < start + len
        invariant vadrs == start + n * PAGE && n <= pages
        invariant St() == Unmapped(s, b, Row(sp, n)) && (b != 0 ==> b in mem)
      {
        Turn(start, len, n);
        UnmappedNext(s, b, sp, n);
        var ok := UnmapPage(b, PageOf(vadrs));
        if !ok {
          rets := false;
        }
        n := n + 1;
        vadrs := vadrs + PAGE;
      }
      Turn(start, len, n);
    }

    // vma_del_vadrs_core on the area k that holds the range; avail says whether a descriptor is left.
    method Delete(k: nat, start: nat, len: nat, avail: bool) returns (ok: bool)
      requires Valid() && DeleteOk(St(), k, start, len)
      modifies this
      ensures Valid() && (St(), ok) == DeleteStep(old(St()), cachemax, k, start, len, avail)
      ensures old(Agree(St(), cachemax)) && start % PAGE == 0 ==> Agree(St(), cachemax)
      ensures ok ==> (mmu == old(mmu) - Touched(start, len) <==> start % PAGE == 0 || (start + len - 1) / PAGE !in old(mmu))
    {
      ghost var s := St();
      DeleteFacts(s, cachemax, k, start, len, avail);
      hide Sound, Agree, Touched, DeleteStep;
      if areas[k].start == start && areas[k].end == start + len {
        DeleteWhole(k, start, len);
        ok := true;
      } else {
        ok := DeletePart(k, start, len, avail);
      }
    }

    // The case of the whole area.
    method DeleteWhole(k: nat, start: nat, len: nat)
      requires Counters() && DeleteOk(St(), k, start, len) && areas[k].start == start && areas[k].end == start + len
      requires areas[k].box != 0 ==> areas[k].box in mem && areas[k].box in head
      modifies this
      ensures Counters()
      ensures St() == Put(Unmapped(old(St()), old(areas)[k].box, Visited(start, len)), cachemax, old(areas)[k].box).(areas := Replaced(old(areas), k, []))
      ensures mmu == old(mmu) - Touched(start, len) <==> start % PAGE == 0 || (start + len - 1) / PAGE !in old(mmu)
    {
      var b := areas[k].box;
      ghost var s := St();
      UnmappedIs(s, b, Visited(start, len));
      UnmappedBox(s, b, Visited(start, len));
      hide Touched, Visited, Unmapped, Put, Replaced;
      var rets := Unmap(b, start, len);
      PutMaps(St(), cachemax, b);
      PutAreas(St(), cachemax, b);
      var put := PutBox(b);
      areas := Replaced(areas, k, []);
    }

    // The cases that keep a part of the area.
    method DeletePart(k: nat, start: nat, len: nat, avail: bool) returns (ok: bool)
      requires Counters() && DeleteOk(St(), k, start, len) && (areas[k].box != 0 ==> areas[k].box in mem)
      requires !(areas[k].start == start && areas[k].end == start + len)
      modifies this
      ensures Counters() && (St(), ok) == DeleteStep(old(St()), cachemax, k, start, len, avail)
      ensures ok ==> (mmu == old(mmu) - Touched(start, len) <==> start % PAGE == 0 || (start + len - 1) / PAGE !in old(mmu))
    {
      hide Touched, Visited, Replaced, Pieces;
      var b := areas[k].box;
      if areas[k].start < start && start + len < areas[k].end {
        if !avail {
          return false;
        }
        if b != 0 {
          mem := mem[b := mem[b].(cont := mem[b].cont + 1)];   // knl_count_kvmemcbox
        }
      }
      areas := Replaced(areas, k, Pieces(areas[k], start, len));
      var rets := Unmap(b, start, len);
      ok := true;
    }

    // vma_new_vadrs_core on the area k it chose: that area grows, or a new one without a box follows it.
    method New(k: nat, start: nat, len: nat, merge: bool)
      requires Valid() && NewOk(St(), k, start, len, merge)
      modifies this`areas
      ensures Valid() && St() == NewStep(old(St()), k, start, len, merge)
      ensures old(Agree(St(), cachemax)) ==> Agree(St(), cachemax)
    {
      NewSound(St(), cachemax, k, start, len, merge);
      if Agree(St(), cachemax) {
        NewAgrees(St(), cachemax, k, start, len, merge);
      }
      hide Sound, Agree, Replaced, Grown;
      areas := Replaced(areas, k, Grown(areas[k], start, len, merge));
    }

    // vma_map_fairvadrs_core: an access to address a faulted.  page is what the page allocator would give,
    // box a new box if one can be made, mapped what hal_mmu_transform would answer.
    method Fault(a: nat, page: Option<nat>, box: Option<nat>, mapped: bool) returns (r: FaultResult)
      requires Valid() && FaultOk(St(), a, page, box)
      modifies this
      ensures Valid() && (St(), r) == FaultStep(old(St()), a, page, box, mapped)
      ensures old(Agree(St(), cachemax)) ==> Agree(St(), cachemax)
    {
      ghost var s := St();
      FaultFacts(s, cachemax, a, page, box, mapped);
      hide Sound, Agree, FaultStep;
      var found, k := FindArea(a);
      if !found {
        return EFAULT;
      }
      r := FaultIn(k, a / PAGE, page, box, mapped);
    }

    // vma_map_find_kmvarsdsc: the first area that the address lies in.
    method FindArea(a: nat) returns (found: bool, k: nat)
      ensures found ==> k < |areas| && Covers(areas[k], a) && forall j :: 0 <= j < k ==> !Covers(areas[j], a)
      ensures !found ==> forall j :: 0 <= j < |areas| ==> !Covers(areas[j], a)
      ensures FirstCover(areas, 0, a) == if found then Some(k) else None
    {
      k := 0;
      while k < |areas|
        invariant 0 <= k <= |areas| && FirstCover(areas, 0, a) == FirstCover(areas, k, a)
        invariant forall j :: 0 <= j < k ==> !Covers(areas[j], a)
      {
        if Covers(areas[k], a) {
          return true, k;
        }
        k := k + 1;
      }
      found := false;
    }

    // The fault lies in area k.
    method FaultIn(k: nat, p: nat, page: Option<nat>, box: Option<nat>, mapped: bool) returns (r: FaultResult)
      requires Counters() && k < |areas| && Apart(St())
      requires (box.Some? ==> box.value != 0 && box.value !in head) && p !in mmu
      requires page.Some? ==> forall b :: b in mem ==> page.value !in mem[b].msas
      modifies this
      ensures Counters()
      ensures var t := WithBox(old(St()), k, box);
        if t.None? then r == ENOMEM && St() == old(St())
        else if page.None? || !mapped then r == ENOMEM && St() == t.value
        else r == EOK && St() == Mapped(t.value, k, p, page.value)
    {
      NotListed(St(), k, box, page);
      var ok := ReadyBox(k, box);
      hide WithBox, Mapped, Apart;
      if !ok {
        return ENOMEM;
      }
      r := MapPage(k, p, page, mapped);
    }

    // vma_map_retn_kvmemcbox: the area gets a box if it has none.
    method ReadyBox(k: nat, box: Option<nat>) returns (ok: bool)
      requires Counters() && k < |areas| && Apart(St()) && (box.Some? ==> box.value != 0 && box.value !in head)
      modifies this`areas, this`mem, this`head, this`kmbnr, this`cache, this`cachenr
      ensures Counters() && |areas| == |old(areas)|
      ensures WithBox(old(St()), k, box) == if ok then Some(St()) else None
      ensures ok ==> areas[k].box != 0 && areas[k].box in mem
      ensures !ok ==> St() == old(St())
    {
      if areas[k].box != 0 {
        return true;
      }
      var nb := GetBox(box);
      if nb == 0 {
        return false;
      }
      areas := areas[k := areas[k].(box := nb)];
      ok := true;
    }

    // vma_map_phyadrs: a page is taken into the box's list and mapped; if that fails it leaves the list.
    method MapPage(k: nat, p: nat, page: Option<nat>, mapped: bool) returns (r: FaultResult)
      requires k < |areas| && areas[k].box != 0 && areas[k].box in mem
      requires page.Some? ==> page.value !in mem[areas[k].box].msas
      modifies this`mem, this`mmu, this`rmap
      ensures r == if page.Some? && mapped then EOK else ENOMEM
      ensures St() == if r == EOK then Mapped(old(St()), k, p, page.value) else old(St())
    {
      if page.None? {
        return ENOMEM;
      }
      var b, f := areas[k].box, page.value;
      mem := mem[b := mem[b].(msas := mem[b].msas + {f})];
      if !mapped {
        var ok := DelUserMsa(b, f);
        assert old(mem)[b].msas + {f} - {f} == old(mem)[b].msas;
        assert mem == old(mem);
        return ENOMEM;
      }
      mmu := mmu[p := f];
      rmap := rmap[f := p];
      r := EOK;
    }
  }

  function PageOf(a: nat): nat { a / PAGE }

  lemma VisitedIs(start: nat, len: nat)
    ensures Visited(start, len) == Row(PageOf(start), PageOf(len))
  {
  }

  // Turn n of the unmapping loop looks at page start / 4096 + n, and there are len / 4096 turns.
  lemma Turn(start: nat, len: nat, n: nat)
    requires len % PAGE == 0
    ensures PageOf(start + n * PAGE) == PageOf(start) + n
    ensures start + n * PAGE < start + len <==> n < PageOf(len)
  {
  }

  lemma UnmappedNone(s: State, b: nat, sp: nat)
    ensures Unmapped(s, b, Row(sp, 0)) == s
  {
    RowNone(s.mem, s.mmu, b, sp);
    assert s.rmap - {} == s.rmap;
  }

  lemma UnmappedNext(s: State, b: nat, sp: nat, n: nat)
    ensures var t, p := Unmapped(s, b, Row(sp, n)), sp + n;
      Unmapped(s, b, Row(sp, n + 1))
      == if p in t.mmu then t.(mmu := t.mmu - {p}, rmap := t.rmap - {t.mmu[p]}, mem := Dropped(t.mem, b, {t.mmu[p]})) else t
  {
    var t, p := Unmapped(s, b, Row(sp, n)), sp + n;
    RowNext(s.mmu, sp, n);
    NotInRow(sp, n);
    hide Row, Frames, Dropped;
    var fs := Frames(s.mmu, Row(sp, n));
    if p in s.mmu {
      assert t.mmu[p] == s.mmu[p];
      DroppedMore(s.mem, b, fs, {s.mmu[p]});
      assert s.rmap - fs - {s.mmu[p]} == s.rmap - (fs + {s.mmu[p]});
    } else {
      assert fs + {} == fs && s.mmu - Row(sp, n) - {p} == s.mmu - Row(sp, n);
    }
  }

  lemma UnmappedMmu(s: State, b: nat, ps: set<nat>)
    ensures Unmapped(s, b, ps).mmu == s.mmu - ps
  {
  }

  lemma UnmappedBox(s: State, b: nat, ps: set<nat>)
    ensures b in s.mem ==> b in Unmapped(s, b, ps).mem
  {
  }

  // No box of the cache is in use, and the boxes of areas are.
  ghost predicate Apart(s: State) {
    && 0 !in s.cache && (forall c :: c in s.cache ==> c !in s.head)
    && forall k :: 0 <= k < |s.areas| && s.areas[k].box != 0 ==> s.areas[k].box in s.mem
  }

  lemma BoxesApart(s: State, max: nat)
    requires Sound(s, max)
    ensures Apart(s)
  {
  }

  lemma OthersFacts(s: State, max: nat, mem: map<nat, Box>, cache: seq<nat>, theirs: map<nat, Box>)
    requires Sound(s, max) && OthersOk(s, max, mem, cache, theirs)
    ensures var t := OthersStep(s, mem, cache, theirs);
      Sound(t, max) && (Agree(s, max) && Clean(mem, cache) ==> Agree(t, max))
  {
    OthersSound(s, max, mem, cache, theirs);
    if Agree(s, max) && Clean(mem, cache) {
      OthersAgrees(s, max, mem, cache, theirs);
    }
  }

  lemma DeleteFacts(s: State, max: nat, k: nat, start: nat, len: nat, avail: bool)
    requires Sound(s, max) && DeleteOk(s, k, start, len)
    ensures var r := DeleteStep(s, max, k, start, len, avail);
      Sound(r.0, max) && (Agree(s, max) && start % PAGE == 0 ==> Agree(r.0, max))
    ensures var a, b := s.areas[k], s.areas[k].box;
      && (b != 0 ==> b in s.mem && b in s.head)
      && (a.start == start && a.end == start + len ==>
            DeleteStep(s, max, k, start, len, avail)
            == (Put(Unmapped(s, b, Visited(start, len)), max, b).(areas := Replaced(s.areas, k, [])), true))
  {
    DeleteSound(s, max, k, start, len, avail);
    if Agree(s, max) && start % PAGE == 0 {
      DeleteAgrees(s, max, k, start, len, avail);
    }
    if s.areas[k].box != 0 {
      BoxOfArea(s, max, k);
    }
    hide Sound, Agree, Put, Unmapped, Visited, Replaced;
  }

  lemma FaultFacts(s: State, max: nat, a: nat, page: Option<nat>, box: Option<nat>, mapped: bool)
    requires Sound(s, max) && FaultOk(s, a, page, box)
    ensures var r := FaultStep(s, a, page, box, mapped);
      Apart(s) && Sound(r.0, max) && (Agree(s, max) ==> Agree(r.0, max))
    ensures var c, r := FirstCover(s.areas, 0, a), FaultStep(s, a, page, box, mapped);
      && (c.None? ==> r == (s, EFAULT))
      && (c.Some? ==> var t := WithBox(s, c.value, box);
                      r == if t.None? then (s, ENOMEM)
                           else if page.None? || !mapped then (t.value, ENOMEM)
                           else (Mapped(t.value, c.value, a / PAGE, page.value), EOK))
  {
    FaultSound(s, max, a, page, box, mapped);
    if Agree(s, max) {
      FaultAgrees(s, max, a, page, box, mapped);
    }
    BoxesApart(s, max);
    hide Sound, Agree, Apart, WithBox, Mapped, FirstCover;
  }

  // The page that the allocator gives is not in the list of the box that area k has or gets.
  lemma NotListed(s: State, k: nat, box: Option<nat>, page: Option<nat>)
    requires k < |s.areas| && (page.Some? ==> forall b :: b in s.mem ==> page.value !in s.mem[b].msas)
    ensures var t := WithBox(s, k, box);
      t.Some? && page.Some? && t.value.areas[k].box in t.value.mem ==> page.value !in t.value.mem[t.value.areas[k].box].msas
  {
  }
}
