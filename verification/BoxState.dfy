// What page faults, allocations and deletions do to the areas of an address space, the page table and
// the memory boxes, as steps on values (krlvadrsmem.c).  Areas are ranges of addresses, which need not lie
// on page bounds; pages are address / 4096.
module BoxState {
  import opened Params
  import opened BoxBooks

  const PAGE: nat := 0x1000
  const USER_END: nat := 0x7fff_ffff_ffff

  datatype FaultResult = EOK | EFAULT | ENOMEM

  // mem holds every box there is, head the boxes in use here, theirs those that other address spaces use.
  datatype State = State(areas: seq<Area>, mem: map<nat, Box>, head: set<nat>, cache: seq<nat>,
                         theirs: map<nat, Box>, mmu: map<nat, nat>, rmap: map<nat, nat>)

  // ---- the steps ----

  // The pages that vma_del_unmapping_phyadrs looks at: one for every 4096 bytes from start on.
  function Visited(start: nat, len: nat): set<nat> { Row(start / PAGE, len / PAGE) }

  // The pages that the range lies in.
  function Touched(start: nat, len: nat): set<nat>
    requires len > 0
  {
    Row(start / PAGE, (start + len - 1) / PAGE - start / PAGE + 1)
  }

  // Those of ps that are mapped are unmapped, and their physical pages leave the list of box b.
  function Unmapped(s: State, b: nat, ps: set<nat>): State {
    var fs := Frames(s.mmu, ps);
    s.(mmu := s.mmu - ps, rmap := s.rmap - fs, mem := Dropped(s.mem, b, fs))
  }

  // knl_put_kvmemcbox: one user less; the last one sends the box to the cache, or frees it.
  function Put(s: State, max: nat, b: nat): State {
    if b == 0 || b !in s.mem then s
    else
      var x := s.mem[b].(cont := s.mem[b].cont - 1);
      if x.cont >= 1 then s.(mem := s.mem[b := x])
      else if |s.cache| >= max then s.(mem := s.mem - {b}, head := s.head - {b})
      else s.(mem := s.mem[b := x], head := s.head - {b}, cache := [b] + s.cache)
  }

  function CountUp(mem: map<nat, Box>, b: nat): map<nat, Box> {
    if b == 0 || b !in mem then mem else mem[b := mem[b].(cont := mem[b].cont + 1)]
  }

  // vma_del_vadrs_core on the area k that holds the range; avail says whether a descriptor is left.
  function DeleteStep(s: State, max: nat, k: nat, start: nat, len: nat, avail: bool): (State, bool)
    requires k < |s.areas|
  {
    var a := s.areas[k];
    var rest := Replaced(s.areas, k, Pieces(a, start, len));
    if a.start == start && a.end == start + len then
      (Put(Unmapped(s, a.box, Visited(start, len)), max, a.box).(areas := rest), true)
    else if a.start < start && start + len < a.end then
      if !avail then (s, false)
      else (Unmapped(s.(mem := CountUp(s.mem, a.box)), a.box, Visited(start, len)).(areas := rest), true)
    else (Unmapped(s, a.box, Visited(start, len)).(areas := rest), true)
  }

  // vma_new_vadrs_core on the area k it chose.
  function NewStep(s: State, k: nat, start: nat, len: nat, merge: bool): State
    requires k < |s.areas|
  {
    s.(areas := Replaced(s.areas, k, Grown(s.areas[k], start, len, merge)))
  }

  // The first area that address a lies in.
  function FirstCover(v: seq<Area>, k: nat, a: nat): (r: Option<nat>)
    requires k <= |v|
    ensures r.Some? ==> k <= r.value < |v| && Covers(v[r.value], a)
    ensures r.None? <==> forall j :: k <= j < |v| ==> !Covers(v[j], a)
    decreases |v| - k
  {
    if k == |v| then None else if Covers(v[k], a) then Some(k) else FirstCover(v, k + 1, a)
  }

  function Assigned(s: State, k: nat, b: nat): State
    requires k < |s.areas|
  {
    s.(areas := s.areas[k := s.areas[k].(box := b)], mem := s.mem[b := Box(1, {})], head := s.head + {b})
  }

  // The state in which area k has a box: its own, one from the cache, or the new one that avail names.
  function WithBox(s: State, k: nat, avail: Option<nat>): (r: Option<State>)
    requires k < |s.areas|
    ensures r.Some? ==> |r.value.areas| == |s.areas|
  {
    if s.areas[k].box != 0 then Some(s)
    else if s.cache != [] then Some(Assigned(s.(cache := s.cache[1..]), k, s.cache[0]))
    else if avail.Some? then Some(Assigned(s, k, avail.value))
    else None
  }

  function Mapped(s: State, k: nat, p: nat, f: nat): State
    requires k < |s.areas|
  {
    var b := s.areas[k].box;
    if b !in s.mem then s
    else s.(mem := s.mem[b := s.mem[b].(msas := s.mem[b].msas + {f})], mmu := s.mmu[p := f], rmap := s.rmap[f := p])
  }

  // vma_map_fairvadrs_core: an access to address a faulted.  page is what the page allocator would give,
  // box a new box if one can be made, mapped what hal_mmu_transform would answer.
  function FaultStep(s: State, a: nat, page: Option<nat>, box: Option<nat>, mapped: bool): (State, FaultResult) {
    var c := FirstCover(s.areas, 0, a);
    if c.None? then (s, EFAULT)
    else
      var t := WithBox(s, c.value, box);
      if t.None? then (s, ENOMEM)
      else if page.None? || !mapped then (t.value, ENOMEM)
      else (Mapped(t.value, c.value, a / PAGE, page.value), EOK)
  }

  // Other address spaces changed the shared boxes and the cache.
  function OthersStep(s: State, mem: map<nat, Box>, cache: seq<nat>, theirs: map<nat, Box>): State {
    s.(mem := mem, cache := cache, theirs := theirs)
  }

  // ---- what every step keeps ----

  ghost predicate NoDup(s: seq<nat>) {
    forall j, k :: 0 <= j < k < |s| ==> s[j] != s[k]
  }

  // Boxes in the cache are in use nowhere; those of other address spaces are neither in the cache nor
  // in use here.
  ghost predicate Cached(mem: map<nat, Box>, head: set<nat>, cache: seq<nat>, theirs: map<nat, Box>) {
    && NoDup(cache) && 0 !in theirs
    && (forall b :: b in cache ==> b in mem && b !in head && b != 0 && b !in theirs)
    && (forall b :: b in theirs ==> b in mem && mem[b] == theirs[b] && b !in head)
  }

  // Whatever the requests: areas in order, counts right, the cache bounded and disjoint from the rest.
  ghost predicate Sound(s: State, max: nat) {
    && Sorted(s.areas) && Refs(s.areas, s.mem, s.head) && 0 !in s.head
    && Cached(s.mem, s.head, s.cache, s.theirs) && |s.cache| <= max
  }

  // A range of whole pages inside area k.
  predicate DeleteOk(s: State, k: nat, start: nat, len: nat) {
    k < |s.areas| && s.areas[k].start <= start && start + len <= s.areas[k].end && len > 0 && len % PAGE == 0
  }

  predicate NewOk(s: State, k: nat, start: nat, len: nat, merge: bool) {
    && k < |s.areas| && len > 0 && len % PAGE == 0 && (start % PAGE == 0 || start == s.areas[k].end)
    && s.areas[k].end <= start && (merge ==> start == s.areas[k].end)
    && (if k + 1 < |s.areas| then start + len <= s.areas[k + 1].start else start + len < USER_END)
  }

  // A fault happens on an unmapped page, and allocators give what is not in use.
  ghost predicate FaultOk(s: State, a: nat, page: Option<nat>, box: Option<nat>) {
    && a / PAGE !in s.mmu
    && (page.Some? ==> page.value !in s.rmap && forall b :: b in s.mem ==> page.value !in s.mem[b].msas)
    && (box.Some? ==> box.value != 0 && box.value !in s.mem && box.value !in s.head)
  }

  // They leave boxes in use here alone, as every step here leaves theirs alone.
  ghost predicate OthersOk(s: State, max: nat, mem: map<nat, Box>, cache: seq<nat>, theirs: map<nat, Box>) {
    && (forall b :: b in s.head && b in s.mem ==> b in mem && mem[b] == s.mem[b])
    && Cached(mem, s.head, cache, theirs) && |cache| <= max
  }

  lemma OthersSound(s: State, max: nat, mem: map<nat, Box>, cache: seq<nat>, theirs: map<nat, Box>)
    requires Sound(s, max) && OthersOk(s, max, mem, cache, theirs)
    ensures Sound(OthersStep(s, mem, cache, theirs), max)
  {
    hide Sorted, Cached, Users;
  }

  lemma CachedMem(mem: map<nat, Box>, mem': map<nat, Box>, head: set<nat>, cache: seq<nat>, theirs: map<nat, Box>)
    requires Cached(mem, head, cache, theirs)
    requires forall b :: b in mem && b !in head ==> b in mem' && mem'[b] == mem[b]
    ensures Cached(mem', head, cache, theirs)
  {
  }

  lemma CachedRest(mem: map<nat, Box>, head: set<nat>, cache: seq<nat>, theirs: map<nat, Box>)
    requires Cached(mem, head, cache, theirs) && cache != []
    ensures var b := cache[0];
      b in mem && b !in head && b != 0 && Cached(mem[b := Box(1, {})], head + {b}, cache[1..], theirs)
  {
    forall c | c in cache[1..] ensures c in cache && c != cache[0] {
      var j :| 0 <= j < |cache[1..]| && cache[1..][j] == c;
      assert cache[j + 1] == c;
    }
  }

  lemma CachedNew(mem: map<nat, Box>, head: set<nat>, cache: seq<nat>, theirs: map<nat, Box>, b: nat)
    requires Cached(mem, head, cache, theirs) && b !in mem
    ensures Cached(mem[b := Box(1, {})], head + {b}, cache, theirs)
  {
  }

  lemma DroppedFacts(mem: map<nat, Box>, b: nat, fs: set<nat>)
    ensures var m := Dropped(mem, b, fs);
      m.Keys == mem.Keys && forall c :: c in mem ==>
        m[c] == if c == b && b != 0 then mem[c].(msas := mem[c].msas - fs) else mem[c]
  {
  }

  // The box of an area is in use and counted.
  lemma BoxOfArea(s: State, max: nat, k: nat)
    requires Sound(s, max) && k < |s.areas| && s.areas[k].box != 0
    ensures var b := s.areas[k].box; b in s.head && b in s.mem && s.mem[b].cont >= 1
  {
  }

  // Unmapping touches neither counts nor the cache.
  lemma UnmappedSound(s: State, max: nat, b: nat, ps: set<nat>)
    requires Sound(s, max) && (b != 0 ==> b in s.head && b in s.mem)
    ensures Sound(Unmapped(s, b, ps), max)
  {
    DroppedFacts(s.mem, b, Frames(s.mmu, ps));
    hide Dropped, Frames, Sorted, Users;
    CachedMem(s.mem, Unmapped(s, b, ps).mem, s.head, s.cache, s.theirs);
  }

  lemma CachedPut(mem: map<nat, Box>, head: set<nat>, cache: seq<nat>, theirs: map<nat, Box>, b: nat, x: Box)
    requires Cached(mem, head, cache, theirs) && b in head && b != 0 && b in mem
    ensures Cached(mem[b := x], head, cache, theirs)
    ensures Cached(mem - {b}, head - {b}, cache, theirs)
    ensures Cached(mem[b := x], head - {b}, [b] + cache, theirs)
  {
  }

  // The last area of area k's place goes, and with it one user of its box.
  lemma WholeSound(s: State, max: nat, k: nat)
    requires Sound(s, max) && k < |s.areas|
    requires Sorted(Replaced(s.areas, k, []))
    ensures Sound(Put(s, max, s.areas[k].box).(areas := Replaced(s.areas, k, [])), max)
  {
    var b := s.areas[k].box;
    RemovedRefs(s.areas, k, s.mem, s.head);
    if b != 0 {
      BoxOfArea(s, max, k);
      CachedPut(s.mem, s.head, s.cache, s.theirs, b, s.mem[b].(cont := s.mem[b].cont - 1));
    }
    hide Sorted, Cached, Users, Replaced;
  }

  lemma DeleteSound(s: State, max: nat, k: nat, start: nat, len: nat, avail: bool)
    requires Sound(s, max) && DeleteOk(s, k, start, len)
    ensures Sound(DeleteStep(s, max, k, start, len, avail).0, max)
  {
    var a := s.areas[k];
    var b := a.box;
    if b != 0 { BoxOfArea(s, max, k); }
    DeletedSorted(s.areas, k, start, len);
    UnmappedSound(s, max, b, Visited(start, len));
    var t := Unmapped(s, b, Visited(start, len));
    if a.start == start && a.end == start + len {
      assert Pieces(a, start, len) == [];
      hide Sound, Unmapped, Visited;
      assert Sorted(Replaced(t.areas, k, [])) && t.areas == s.areas by { UnmappedAreas(s, b, Visited(start, len)); }
      WholeSound(t, max, k);
    } else {
      PartSound(s, max, k, start, len, avail);
    }
  }

  lemma UnmappedAreas(s: State, b: nat, ps: set<nat>)
    ensures Unmapped(s, b, ps).areas == s.areas
  {
  }

  lemma PartSound(s: State, max: nat, k: nat, start: nat, len: nat, avail: bool)
    requires Sound(s, max) && DeleteOk(s, k, start, len)
    requires !(s.areas[k].start == start && s.areas[k].end == start + len)
    ensures Sound(DeleteStep(s, max, k, start, len, avail).0, max)
  {
    var a := s.areas[k];
    var b := a.box;
    if b != 0 { BoxOfArea(s, max, k); }
    var middle := a.start < start && start + len < a.end;
    if middle && !avail {
      return;
    }
    var mem1 := if middle then CountUp(s.mem, b) else s.mem;
    var fs := Frames(s.mmu, Visited(start, len));
    DroppedFacts(mem1, b, fs);
    DeletedSorted(s.areas, k, start, len);
    hide Frames, Visited, Dropped, Sorted, Users, Replaced;
    DeletedRefs(s.areas, k, start, len, s.mem, s.head, Dropped(mem1, b, fs));
    hide Refs;
    CachedMem(s.mem, Dropped(mem1, b, fs), s.head, s.cache, s.theirs);
  }

  lemma NewSound(s: State, max: nat, k: nat, start: nat, len: nat, merge: bool)
    requires Sound(s, max) && NewOk(s, k, start, len, merge)
    ensures Sound(NewStep(s, k, start, len, merge), max)
  {
    GrownSorted(s.areas, k, start, len, merge);
    GrownRefs(s.areas, k, start, len, merge, s.mem, s.head);
  }

  lemma AssignedSound(s: State, max: nat, k: nat, b: nat)
    requires Sorted(s.areas) && Refs(s.areas, s.mem, s.head) && 0 !in s.head && |s.cache| <= max
    requires k < |s.areas| && s.areas[k].box == 0 && b !in s.head && b != 0
    requires Cached(s.mem[b := Box(1, {})], s.head + {b}, s.cache, s.theirs)
    ensures Sound(Assigned(s, k, b), max)
  {
    AssignRefs(s.areas, s.mem, s.head, k, b);
    AssignSorted(s.areas, k, b);
  }

  lemma WithBoxSound(s: State, max: nat, k: nat, box: Option<nat>)
    requires Sound(s, max) && k < |s.areas| && (box.Some? ==> box.value != 0 && box.value !in s.mem && box.value !in s.head)
    ensures var t := WithBox(s, k, box);
      t.Some? ==> Sound(t.value, max) && t.value.areas[k].box != 0 && t.value.mmu == s.mmu && t.value.rmap == s.rmap
    ensures WithBox(s, k, box).None? <==> s.areas[k].box == 0 && s.cache == [] && box.None?
  {
    if s.areas[k].box == 0 {
      if s.cache != [] {
        CachedRest(s.mem, s.head, s.cache, s.theirs);
        hide Sorted, Refs, Cached;
        AssignedSound(s.(cache := s.cache[1..]), max, k, s.cache[0]);
      } else if box.Some? {
        CachedNew(s.mem, s.head, s.cache, s.theirs, box.value);
        hide Sorted, Refs, Cached;
        AssignedSound(s, max, k, box.value);
      }
    }
  }

  lemma FaultSound(s: State, max: nat, a: nat, page: Option<nat>, box: Option<nat>, mapped: bool)
    requires Sound(s, max) && FaultOk(s, a, page, box)
    ensures Sound(FaultStep(s, a, page, box, mapped).0, max)
  {
    var c := FirstCover(s.areas, 0, a);
    if c.Some? {
      WithBoxSound(s, max, c.value, box);
      var t := WithBox(s, c.value, box);
      if t.Some? && page.Some? && mapped {
        BoxOfArea(t.value, max, c.value);
        hide Sorted, WithBox, Users, FirstCover;
        CachedMem(t.value.mem, Mapped(t.value, c.value, a / PAGE, page.value).mem, t.value.head, t.value.cache, t.value.theirs);
      }
    }
  }

  // ---- what the steps do ----

  // A fault is EFAULT exactly outside all areas, and EOK exactly if the area has a box or can be given one and
  // a page was found and mapped; then that page, and no other, is mapped anew, in the area's box.
  lemma FaultMeans(s: State, max: nat, a: nat, page: Option<nat>, box: Option<nat>, mapped: bool, k: nat)
    requires Sound(s, max) && FaultOk(s, a, page, box) && k < |s.areas| && Covers(s.areas[k], a)
    ensures var (t, r) := FaultStep(s, a, page, box, mapped);
      && r != EFAULT
      && (r == EOK <==> (s.areas[k].box != 0 || s.cache != [] || box.Some?) && page.Some? && mapped)
      && t.mmu == (if r == EOK then s.mmu[a / 0x1000 := page.value] else s.mmu)
      && |t.areas| == |s.areas| && (forall j :: 0 <= j < |s.areas| && j != k ==> t.areas[j] == s.areas[j])
      && t.areas[k].start == s.areas[k].start && t.areas[k].end == s.areas[k].end
      && (r == EOK ==> t.areas[k].box in t.mem && page.value in t.mem[t.areas[k].box].msas)
  {
    var c := FirstCover(s.areas, 0, a);
    if c.value != k {
      if c.value < k { Before(s.areas, c.value, k); } else { Before(s.areas, k, c.value); }
    }
    WithBoxSound(s, max, k, box);
    hide FirstCover;
    if s.areas[k].box != 0 { BoxOfArea(s, max, k); }
  }

  lemma FaultOutside(s: State, a: nat, page: Option<nat>, box: Option<nat>, mapped: bool)
    ensures var (t, r) := FaultStep(s, a, page, box, mapped);
      (r == EFAULT <==> forall k :: 0 <= k < |s.areas| ==> !Covers(s.areas[k], a)) && (r == EFAULT ==> t == s)
  {
  }

  // A deletion fails exactly if a middle needs a descriptor and there is none.  Otherwise it unmaps exactly
  // the pages that hold start, start + 4096 and so on up to the end of the range.
  lemma DeleteMeans(s: State, max: nat, k: nat, start: nat, len: nat, avail: bool, p: nat)
    requires DeleteOk(s, k, start, len)
    ensures var (t, ok) := DeleteStep(s, max, k, start, len, avail);
      && (ok <==> avail || s.areas[k].start == start || s.areas[k].end == start + len)
      && (!ok ==> t == s)
      && (ok ==> (p in t.mmu <==> p in s.mmu && !(start <= p * 0x1000 + start % 0x1000 < start + len)))
      && (p in t.mmu ==> p in s.mmu && t.mmu[p] == s.mmu[p])
  {
    VisitedMeans(start, len, p);
    hide Visited, Frames, Dropped, Replaced, Pieces;
  }

  lemma VisitedMeans(start: nat, len: nat, p: nat)
    requires len % PAGE == 0
    ensures p in Visited(start, len) <==> start <= p * 0x1000 + start % 0x1000 < start + len
  {
  }

  // Address x lies in some area.
  ghost predicate InArea(v: seq<Area>, x: nat) {
    exists k :: 0 <= k < |v| && Covers(v[k], x)
  }

  lemma InConcat(v: seq<Area>, w: seq<Area>, x: nat)
    ensures InArea(v + w, x) <==> InArea(v, x) || InArea(w, x)
  {
    if InArea(v, x) {
      var k :| 0 <= k < |v| && Covers(v[k], x);
      assert Covers((v + w)[k], x);
    }
    if InArea(w, x) {
      var k :| 0 <= k < |w| && Covers(w[k], x);
      assert Covers((v + w)[|v| + k], x);
    }
  }

  lemma InReplaced(v: seq<Area>, k: nat, mid: seq<Area>, x: nat)
    requires Sorted(v) && k < |v|
    ensures InArea(Replaced(v, k, mid), x) <==> InArea(mid, x) || (InArea(v, x) && !Covers(v[k], x))
  {
    InConcat(v[..k], mid, x);
    InConcat(v[..k] + mid, v[k + 1..], x);
    InConcat(v[..k], [v[k]], x);
    InConcat(v[..k] + [v[k]], v[k + 1..], x);
    assert v == v[..k] + [v[k]] + v[k + 1..];
    assert InArea([v[k]], x) <==> Covers(v[k], x) by {
      if Covers(v[k], x) { assert Covers([v[k]][0], x); }
    }
    if Covers(v[k], x) { NotElsewhere(v, k, x); }
  }

  // Exactly the range leaves the areas, and what is left keeps its box.
  lemma DeleteCovers(s: State, max: nat, k: nat, start: nat, len: nat, avail: bool, x: nat)
    requires Sorted(s.areas) && DeleteOk(s, k, start, len) && DeleteStep(s, max, k, start, len, avail).1
    ensures var v := DeleteStep(s, max, k, start, len, avail).0.areas; var gone := start <= x < start + len;
      (InArea(v, x) <==> InArea(s.areas, x) && !gone) && BoxAt(v, x) == if gone then 0 else BoxAt(s.areas, x)
  {
    var a := s.areas[k];
    DeletedBoxAt(s.areas, k, start, len, x);
    InReplaced(s.areas, k, Pieces(a, start, len), x);
    InConcat(if a.start < start then [a.(end := start)] else [], if start + len < a.end then [a.(start := start + len)] else [], x);
    InOne(a.(end := start), x);
    InOne(a.(start := start + len), x);
    if Covers(a, x) { assert InArea(s.areas, x); }
    hide InArea, Replaced, BoxAt, Unmapped, Put, CountUp, Visited, Sorted;
  }

  lemma InOne(a: Area, x: nat)
    ensures (InArea([a], x) <==> Covers(a, x)) && !InArea([], x)
  {
    if Covers(a, x) { assert Covers([a][0], x); }
  }

  // Exactly the range is added to them.
  lemma NewCovers(s: State, k: nat, start: nat, len: nat, merge: bool, x: nat)
    requires Sorted(s.areas) && NewOk(s, k, start, len, merge)
    ensures InArea(NewStep(s, k, start, len, merge).areas, x) <==> InArea(s.areas, x) || start <= x < start + len
  {
    var a := s.areas[k];
    InReplaced(s.areas, k, Grown(a, start, len, merge), x);
    InOne(a.(end := a.end + len), x);
    InOne(a, x);
    InOne(Area(start, start + len, 0), x);
    InConcat([a], [Area(start, start + len, 0)], x);
    if Covers(a, x) { assert InArea(s.areas, x); }
    hide InArea, Replaced, Sorted;
    assert [a] + [Area(start, start + len, 0)] == [a, Area(start, start + len, 0)];
  }
}
