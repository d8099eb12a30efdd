// As long as deletions start on page bounds, the page list of a box is exactly the pages mapped inside its
// areas, and a box comes to the cache with an empty list (krlvadrsmem.c).
module BoxAligned {
  import opened Params
  import opened BoxBooks
  import opened BoxState

  // Areas begin on page bounds and end there, or at the end of the user's addresses.
  ghost predicate OnPages(v: seq<Area>) {
    forall k :: 0 <= k < |v| ==> v[k].start % PAGE == 0 && v[k].end <= USER_END && (v[k].end % PAGE == 0 || v[k].end == USER_END)
  }

  function PageArea(a: Area): Area { Area(a.start / PAGE, (a.end + PAGE - 1) / PAGE, a.box) }

  // The areas, counted in pages.
  function PageView(v: seq<Area>): (w: seq<Area>)
    ensures |w| == |v|
  {
    if v == [] then [] else PageView(v[..|v| - 1]) + [PageArea(v[|v| - 1])]
  }

  lemma {:induction false} ViewElems(v: seq<Area>)
    ensures forall k :: 0 <= k < |v| ==> PageView(v)[k] == PageArea(v[k])
  {
    if v != [] { ViewElems(v[..|v| - 1]); }
  }

  ghost predicate Clean(mem: map<nat, Box>, cache: seq<nat>) {
    forall b :: b in cache && b in mem ==> mem[b].msas == {}
  }

  // Lists, counts and page table agree, and the boxes in the cache list nothing.
  ghost predicate Agree(s: State, max: nat) {
    && Sound(s, max) && OnPages(s.areas) && Clean(s.mem, s.cache)
    && Books(PageView(s.areas), s.mem, s.head, s.mmu, s.rmap)
  }

  // ---- areas in addresses and in pages ----

  lemma ViewSorted(v: seq<Area>)
    requires Sorted(v) && OnPages(v)
    ensures Sorted(PageView(v))
  {
    ViewElems(v);
    forall k | 0 < k < |v| ensures Follows(PageView(v), k) {
      assert Follows(v, k);
    }
  }

  lemma {:induction false} ViewUsers(v: seq<Area>, b: nat)
    ensures Users(PageView(v), b) == Users(v, b)
  {
    if v != [] {
      ViewUsers(v[..|v| - 1], b);
      ViewAt(v, |v| - 1);
      assert PageView(v)[..|v| - 1] == PageView(v[..|v| - 1]);
    }
  }

  lemma ViewRefs(v: seq<Area>, mem: map<nat, Box>, head: set<nat>)
    ensures Refs(PageView(v), mem, head) <==> Refs(v, mem, head)
  {
    forall b: nat ensures Users(PageView(v), b) == Users(v, b) {
      ViewUsers(v, b);
    }
    ViewElems(v);
    hide Users, PageView;
  }

  lemma ViewReplaced(v: seq<Area>, k: nat, mid: seq<Area>)
    requires k < |v|
    ensures PageView(Replaced(v, k, mid)) == Replaced(PageView(v), k, PageView(mid))
  {
    ViewElems(v);
    ViewElems(mid);
    ViewElems(Replaced(v, k, mid));
    hide PageView, PageArea;
    var w, x := PageView(Replaced(v, k, mid)), Replaced(PageView(v), k, PageView(mid));
    assert |w| == |x| && forall j :: 0 <= j < |w| ==> w[j] == x[j];
  }

  // A deletion that starts on a page bound, in pages.
  lemma ViewPieces(a: Area, start: nat, len: nat)
    requires a.start % PAGE == 0 && start % PAGE == 0 && len % PAGE == 0 && a.start <= start && start + len <= a.end
    ensures PageView(Pieces(a, start, len)) == Pieces(PageArea(a), start / PAGE, len / PAGE)
    ensures PageArea(a).start <= start / PAGE && start / PAGE + len / PAGE <= PageArea(a).end
    ensures len > 0 ==> len / PAGE > 0
  {
    Quotients(a, start, len);
    CutInPages(a, start, len);
    PiecesView(a, start, len, PageArea(a), start / PAGE, len / PAGE);
  }

  lemma PiecesView(a: Area, start: nat, len: nat, x: Area, sp: nat, n: nat)
    requires (a.start < start <==> x.start < sp) && (start + len < a.end <==> sp + n < x.end)
    requires PageArea(a.(end := start)) == x.(end := sp) && PageArea(a.(start := start + len)) == x.(start := sp + n)
    ensures PageView(Pieces(a, start, len)) == Pieces(x, sp, n)
  {
    hide PageArea;
    ViewMaybe(a.start < start, a.(end := start), start + len < a.end, a.(start := start + len));
    assert Pieces(a, start, len) == Maybe(a.start < start, a.(end := start)) + Maybe(start + len < a.end, a.(start := start + len));
  }

  lemma CutInPages(a: Area, start: nat, len: nat)
    requires a.start % PAGE == 0 && start % PAGE == 0 && len % PAGE == 0 && a.start <= start && start + len <= a.end
    ensures PageArea(a.(end := start)) == PageArea(a).(end := start / PAGE)
    ensures PageArea(a.(start := start + len)) == PageArea(a).(start := start / PAGE + len / PAGE)
  {
    Quotients(a, start, len);
  }

  function Maybe(c: bool, a: Area): seq<Area> { if c then [a] else [] }

  lemma ViewMaybe(c: bool, a: Area, d: bool, b: Area)
    ensures PageView(Maybe(c, a) + Maybe(d, b)) == Maybe(c, PageArea(a)) + Maybe(d, PageArea(b))
  {
    hide PageArea;
    ViewElems(Maybe(c, a) + Maybe(d, b));
    hide PageView;
  }

  lemma ViewNone()
    ensures PageView([]) == []
  {
  }

  lemma ViewOne(a: Area)
    ensures PageView([a]) == [PageArea(a)]
  {
    ViewElems([a]);
  }

  lemma ViewTwo(a: Area, b: Area)
    ensures PageView([a, b]) == [PageArea(a), PageArea(b)]
  {
    ViewElems([a, b]);
  }

  lemma Quotients(a: Area, start: nat, len: nat)
    requires a.start % PAGE == 0 && start % PAGE == 0 && len % PAGE == 0 && a.start <= start && start + len <= a.end
    ensures (start + len) / PAGE == start / PAGE + len / PAGE && (start + PAGE - 1) / PAGE == start / PAGE
    ensures a.start / PAGE <= start / PAGE && (a.start < start <==> a.start / PAGE < start / PAGE)
    ensures start / PAGE + len / PAGE <= (a.end + PAGE - 1) / PAGE
    ensures start + len < a.end <==> start / PAGE + len / PAGE < (a.end + PAGE - 1) / PAGE
    ensures len > 0 ==> len / PAGE > 0
  {
  }

  lemma PiecesOnPages(v: seq<Area>, k: nat, start: nat, len: nat)
    requires OnPages(v) && k < |v| && v[k].start <= start && start + len <= v[k].end && start % PAGE == 0 && len % PAGE == 0
    ensures OnPages(Replaced(v, k, Pieces(v[k], start, len)))
  {
    var mid := Pieces(v[k], start, len);
    var w := Replaced(v, k, mid);
    assert (start + len) % PAGE == 0;
    assert forall j :: 0 <= j < |w| ==> w[j] == if j < k then v[j] else if j < k + |mid| then mid[j - k] else v[j - |mid| + 1];
  }

  // ---- deletion ----

  // Unmapping and taking out the areas, without the counts.
  lemma DeleteBooks(s: State, max: nat, k: nat, start: nat, len: nat)
    requires Agree(s, max) && DeleteOk(s, k, start, len) && start % PAGE == 0
    ensures var t := Unmapped(s, s.areas[k].box, Visited(start, len));
      Books(PageView(Replaced(s.areas, k, Pieces(s.areas[k], start, len))), t.mem, t.head, t.mmu, t.rmap)
  {
    var v := s.areas;
    ViewSorted(v);
    ViewPieces(v[k], start, len);
    ViewReplaced(v, k, Pieces(v[k], start, len));
    ViewAt(v, k);
    hide Sorted, Books, Pieces, Replaced, Frames, Row, Dropped, Sound, OnPages, Clean;
    SweepBooks(PageView(v), s.mem, s.head, s.mmu, s.rmap, k, start / PAGE, len / PAGE);
  }

  lemma CleanMem(mem: map<nat, Box>, mem': map<nat, Box>, cache: seq<nat>)
    requires Clean(mem, cache) && forall b :: b in cache && b in mem' ==> b in mem && mem'[b].msas == mem[b].msas
    ensures Clean(mem', cache)
  {
  }

  lemma DroppedClean(s: State, max: nat, b: nat, fs: set<nat>)
    requires Sound(s, max) && Clean(s.mem, s.cache) && (b != 0 ==> b in s.head)
    ensures Clean(Dropped(s.mem, b, fs), s.cache)
  {
    DroppedFacts(s.mem, b, fs);
    hide Dropped, Sorted, Refs;
    CleanMem(s.mem, Dropped(s.mem, b, fs), s.cache);
  }

  // The area as a whole goes: its box loses a user, and with the last one its list is empty.
  lemma WholeAgrees(s: State, max: nat, k: nat, start: nat, len: nat, avail: bool)
    requires Agree(s, max) && DeleteOk(s, k, start, len) && start % PAGE == 0
    requires s.areas[k].start == start && s.areas[k].end == start + len
    ensures var t := DeleteStep(s, max, k, start, len, avail).0;
      Books(PageView(t.areas), t.mem, t.head, t.mmu, t.rmap) && Clean(t.mem, t.cache)
  {
    var v, b := s.areas, s.areas[k].box;
    if b != 0 { BoxOfArea(s, max, k); }
    DeleteBooks(s, max, k, start, len);
    UnmappedSound(s, max, b, Visited(start, len));
    DroppedClean(s, max, b, Frames(s.mmu, Visited(start, len)));
    var u := Unmapped(s, b, Visited(start, len));
    assert Pieces(v[k], start, len) == [];
    ViewRefs(v, u.mem, u.head);
    ViewReplaced(v, k, []);
    ViewAt(v, k);
    ViewNone();
    UnmappedIs(s, b, Visited(start, len));
    if b != 0 { BoxOfArea(u, max, k); }
    hide Unmapped, Visited, Books, Sorted, Replaced, PageView, Pieces, OnPages, Users, Clean;
    WholeGone(PageView(v), k, u.mem, u.head, u.mmu, u.rmap);
    hide Refs, Sound;
    PutAgrees(u, max, k, PageView(v));
    PutMaps(u, max, b);
    hide Put;
  }

  lemma PutMaps(u: State, max: nat, b: nat)
    ensures Put(u, max, b).mmu == u.mmu && Put(u, max, b).rmap == u.rmap
  {
  }

  lemma UnmappedIs(s: State, b: nat, ps: set<nat>)
    ensures var t := Unmapped(s, b, ps); t.areas == s.areas && t.head == s.head && t.cache == s.cache
  {
  }

  lemma PutAgrees(u: State, max: nat, k: nat, pv: seq<Area>)
    requires Sound(u, max) && Clean(u.mem, u.cache) && k < |pv| == |u.areas| && pv[k].box == u.areas[k].box
    requires Refs(pv, u.mem, u.head) && Books(Replaced(pv, k, []), u.mem, u.head, u.mmu, u.rmap)
    requires var b := pv[k].box; b in u.head && b in u.mem && u.mem[b].cont <= 1 ==> u.mem[b].msas == {}
    ensures var t := Put(u, max, pv[k].box);
      Books(Replaced(pv, k, []), t.mem, t.head, u.mmu, u.rmap) && Clean(t.mem, t.cache)
  {
    var b := pv[k].box;
    if b != 0 { BoxOfArea(u, max, k); }
    var t := Put(u, max, b);
    hide Books, Sorted, Replaced, Users;
    WholeDone(pv, k, u.mem, u.head, t.mem, t.head, u.mmu, u.rmap);
  }

  lemma PartAgrees(s: State, max: nat, k: nat, start: nat, len: nat, avail: bool)
    requires Agree(s, max) && DeleteOk(s, k, start, len) && start % PAGE == 0
    requires !(s.areas[k].start == start && s.areas[k].end == start + len)
    ensures var t := DeleteStep(s, max, k, start, len, avail).0;
      Books(PageView(t.areas), t.mem, t.head, t.mmu, t.rmap) && Clean(t.mem, t.cache)
  {
    var a, b := s.areas[k], s.areas[k].box;
    if b != 0 { BoxOfArea(s, max, k); }
    DeleteBooks(s, max, k, start, len);
    var middle := a.start < start && start + len < a.end;
    if middle && !avail {
      return;
    }
    var fs := Frames(s.mmu, Visited(start, len));
    var mem1 := if middle then CountUp(s.mem, b) else s.mem;
    DroppedFacts(s.mem, b, fs);
    DroppedFacts(mem1, b, fs);
    DroppedClean(s, max, b, fs);
    hide Frames, Visited, Dropped, Sorted, Users, Replaced, PageView, Pieces, Refs, OnPages;
    CleanMem(Dropped(s.mem, b, fs), Dropped(mem1, b, fs), s.cache);
    hide Books;
    BooksMem(PageView(Replaced(s.areas, k, Pieces(a, start, len))), Dropped(s.mem, b, fs), Dropped(mem1, b, fs),
             s.head, s.mmu - Visited(start, len), s.rmap - fs);
  }

  // A deletion that starts on a page bound keeps everything in agreement.
  lemma DeleteAgrees(s: State, max: nat, k: nat, start: nat, len: nat, avail: bool)
    requires Agree(s, max) && DeleteOk(s, k, start, len) && start % PAGE == 0
    ensures Agree(DeleteStep(s, max, k, start, len, avail).0, max)
  {
    DeleteSound(s, max, k, start, len, avail);
    PiecesOnPages(s.areas, k, start, len);
    var whole := s.areas[k].start == start && s.areas[k].end == start + len;
    if whole { WholeAgrees(s, max, k, start, len, avail); } else { PartAgrees(s, max, k, start, len, avail); }
    hide Sound, Books, Clean, OnPages, Replaced, Pieces, Unmapped, Visited, PageView, CountUp;
    PutAreas(Unmapped(s, s.areas[k].box, Visited(start, len)), max, s.areas[k].box);
  }

  lemma PutAreas(s: State, max: nat, b: nat)
    ensures Put(s, max, b).areas == s.areas
  {
  }

  // ---- allocation and faults ----

  lemma NewAgrees(s: State, max: nat, k: nat, start: nat, len: nat, merge: bool)
    requires Agree(s, max) && NewOk(s, k, start, len, merge)
    ensures Agree(NewStep(s, k, start, len, merge), max)
  {
    NewSound(s, max, k, start, len, merge);
    NewOnPages(s.areas, k, start, len, merge);
    var v := s.areas;
    ViewSorted(v);
    ViewRefs(v, s.mem, s.head);
    ViewGrown(v, k, start, len, merge);
    ViewRoom(v, k, start, len, merge);
    hide Books, Refs, Sorted, Cached, OnPages, Clean, Replaced, Grown, PageView;
    NewBooks(PageView(v), k, start / PAGE, len / PAGE, merge, s.mem, s.head, s.mmu, s.rmap);
  }

  // The range starts on a page bound: it was asked for there, or an area ends there.
  lemma NewStarts(v: seq<Area>, k: nat, start: nat, len: nat)
    requires Sorted(v) && OnPages(v) && k < |v| && len > 0 && len % PAGE == 0 && (start % PAGE == 0 || start == v[k].end)
    requires v[k].end <= start
    requires if k + 1 < |v| then start + len <= v[k + 1].start else start + len < USER_END
    ensures start % PAGE == 0 && v[k].end % PAGE == 0 && start + len <= USER_END
  {
  }

  lemma NewOnPages(v: seq<Area>, k: nat, start: nat, len: nat, merge: bool)
    requires Sorted(v) && OnPages(v) && k < |v| && len > 0 && len % PAGE == 0 && (start % PAGE == 0 || start == v[k].end)
    requires v[k].end <= start && (merge ==> start == v[k].end)
    requires if k + 1 < |v| then start + len <= v[k + 1].start else start + len < USER_END
    ensures OnPages(Replaced(v, k, Grown(v[k], start, len, merge)))
  {
    NewStarts(v, k, start, len);
    var mid := Grown(v[k], start, len, merge);
    var w := Replaced(v, k, mid);
    assert (start + len) % PAGE == 0;
    assert forall j :: 0 <= j < |w| ==> w[j] == if j < k then v[j] else if j < k + |mid| then mid[j - k] else v[j - |mid| + 1];
  }

  lemma ViewGrown(v: seq<Area>, k: nat, start: nat, len: nat, merge: bool)
    requires Sorted(v) && OnPages(v) && k < |v| && len > 0 && len % PAGE == 0 && (start % PAGE == 0 || start == v[k].end)
    requires v[k].end <= start && (merge ==> start == v[k].end)
    requires if k + 1 < |v| then start + len <= v[k + 1].start else start + len < USER_END
    ensures PageView(Replaced(v, k, Grown(v[k], start, len, merge)))
         == Replaced(PageView(v), k, Grown(PageView(v)[k], start / PAGE, len / PAGE, merge))
  {
    NewStarts(v, k, start, len);
    AreasInPages(v[k], start, len);
    GrownView(v, k, start, len, merge, start / PAGE, len / PAGE);
  }

  lemma GrownView(v: seq<Area>, k: nat, start: nat, len: nat, merge: bool, sp: nat, n: nat)
    requires k < |v| && PageArea(v[k].(end := v[k].end + len)) == PageArea(v[k]).(end := PageArea(v[k]).end + n)
    requires PageArea(Area(start, start + len, 0)) == Area(sp, sp + n, 0)
    ensures PageView(Replaced(v, k, Grown(v[k], start, len, merge))) == Replaced(PageView(v), k, Grown(PageView(v)[k], sp, n, merge))
  {
    hide PageArea, Replaced, PageView;
    ViewReplaced(v, k, Grown(v[k], start, len, merge));
    ViewAt(v, k);
    if merge {
      ViewOne(v[k].(end := v[k].end + len));
    } else {
      ViewTwo(v[k], Area(start, start + len, 0));
    }
  }

  lemma ViewRoom(v: seq<Area>, k: nat, start: nat, len: nat, merge: bool)
    requires Sorted(v) && OnPages(v) && k < |v| && len > 0 && len % PAGE == 0 && (start % PAGE == 0 || start == v[k].end)
    requires v[k].end <= start && (merge ==> start == v[k].end)
    requires if k + 1 < |v| then start + len <= v[k + 1].start else start + len < USER_END
    ensures var pv := PageView(v); var sp, n := start / PAGE, len / PAGE;
      n > 0 && pv[k].end <= sp && (merge ==> sp == pv[k].end) && (k + 1 < |pv| ==> sp + n <= pv[k + 1].start)
  {
    NewStarts(v, k, start, len);
    hide Sorted, OnPages;
    GrownQuotients(v[k].end, start, len);
    ViewAt(v, k);
    if k + 1 < |v| {
      BoundsInPages(start + len, v[k + 1].start);
    }
    hide PageView;
  }

  lemma ViewAt(v: seq<Area>, k: nat)
    requires k < |v|
    ensures PageView(v)[k] == PageArea(v[k]) && (k + 1 < |v| ==> PageView(v)[k + 1] == PageArea(v[k + 1]))
  {
    ViewElems(v);
  }

  lemma AreasInPages(a: Area, start: nat, len: nat)
    requires a.end % PAGE == 0 && start % PAGE == 0 && len % PAGE == 0 && a.end <= start
    ensures PageArea(a.(end := a.end + len)) == PageArea(a).(end := PageArea(a).end + len / PAGE)
    ensures PageArea(Area(start, start + len, 0)) == Area(start / PAGE, start / PAGE + len / PAGE, 0)
    ensures PageArea(a).end == a.end / PAGE
  {
    GrownQuotients(a.end, start, len);
  }

  lemma BoundsInPages(x: nat, y: nat)
    requires x <= y
    ensures x / PAGE <= y / PAGE
  {
  }

  lemma GrownQuotients(end: nat, start: nat, len: nat)
    requires end % PAGE == 0 && start % PAGE == 0 && len % PAGE == 0 && end <= start
    ensures (end + PAGE - 1) / PAGE == end / PAGE <= start / PAGE && (end == start ==> end / PAGE == start / PAGE)
    ensures (start + len) / PAGE == start / PAGE + len / PAGE && (start + len + PAGE - 1) / PAGE == start / PAGE + len / PAGE
    ensures (end + len + PAGE - 1) / PAGE == end / PAGE + len / PAGE
    ensures len > 0 ==> len / PAGE > 0
    ensures (start + len) % PAGE == 0
  {
  }

  lemma AssignedAgrees(s: State, max: nat, k: nat, b: nat)
    requires Sorted(s.areas) && Refs(s.areas, s.mem, s.head) && OnPages(s.areas) && Clean(s.mem[b := Box(1, {})], s.cache)
    requires Books(PageView(s.areas), s.mem, s.head, s.mmu, s.rmap)
    requires k < |s.areas| && s.areas[k].box == 0 && b !in s.head && b != 0
    ensures var t := Assigned(s, k, b);
      OnPages(t.areas) && Clean(t.mem, t.cache) && Books(PageView(t.areas), t.mem, t.head, t.mmu, t.rmap)
  {
    ViewSorted(s.areas);
    ViewRefs(s.areas, s.mem, s.head);
    var pv := PageView(s.areas);
    ViewElems(s.areas);
    ViewElems(s.areas[k := s.areas[k].(box := b)]);
    assert PageView(s.areas[k := s.areas[k].(box := b)]) == pv[k := pv[k].(box := b)];
    hide Sorted, Refs, Books, PageView;
    AssignBooks(pv, s.mem, s.head, s.mmu, s.rmap, k, b);
  }

  lemma WithBoxAgrees(s: State, max: nat, k: nat, box: Option<nat>)
    requires Agree(s, max) && k < |s.areas| && (box.Some? ==> box.value != 0 && box.value !in s.mem && box.value !in s.head)
    ensures var t := WithBox(s, k, box); t.Some? ==> Agree(t.value, max) && t.value.areas[k].box != 0
  {
    WithBoxSound(s, max, k, box);
    if s.areas[k].box == 0 {
      if s.cache != [] {
        CachedRest(s.mem, s.head, s.cache, s.theirs);
        hide Sorted, Refs, Books, OnPages, PageView;
        AssignedAgrees(s.(cache := s.cache[1..]), max, k, s.cache[0]);
      } else if box.Some? {
        hide Sorted, Refs, Books, OnPages, PageView;
        AssignedAgrees(s, max, k, box.value);
      }
    }
  }

  lemma InPageView(v: seq<Area>, k: nat, a: nat)
    requires Sorted(v) && OnPages(v) && k < |v| && Covers(v[k], a)
    ensures BoxAt(PageView(v), a / PAGE) == v[k].box
  {
    ViewSorted(v);
    ViewElems(v);
    assert Covers(PageView(v)[k], a / PAGE);
    SameBoxAt(PageView(v), k, a / PAGE);
  }

  lemma MappedAgrees(s: State, max: nat, k: nat, a: nat, f: nat)
    requires Agree(s, max) && k < |s.areas| && Covers(s.areas[k], a) && s.areas[k].box != 0 && a / PAGE !in s.mmu && f !in s.rmap
    ensures var t := Mapped(s, k, a / PAGE, f);
      OnPages(t.areas) && Clean(t.mem, t.cache) && Books(PageView(t.areas), t.mem, t.head, t.mmu, t.rmap)
  {
    BoxOfArea(s, max, k);
    InPageView(s.areas, k, a);
    hide Sorted, Refs, OnPages, PageView, BoxAt;
    MapBooks(PageView(s.areas), s.mem, s.head, s.mmu, s.rmap, a / PAGE, f);
    hide Books;
    CleanMem(s.mem, Mapped(s, k, a / PAGE, f).mem, s.cache);
  }

  lemma FaultAgrees(s: State, max: nat, a: nat, page: Option<nat>, box: Option<nat>, mapped: bool)
    requires Agree(s, max) && FaultOk(s, a, page, box)
    ensures Agree(FaultStep(s, a, page, box, mapped).0, max)
  {
    FaultSound(s, max, a, page, box, mapped);
    var c := FirstCover(s.areas, 0, a);
    if c.Some? {
      WithBoxAgrees(s, max, c.value, box);
      WithBoxSound(s, max, c.value, box);
      var t := WithBox(s, c.value, box);
      if t.Some? {
        WithBoxCovers(s, c.value, box, a);
        if page.Some? && mapped {
          hide Sound, Books, OnPages, Clean, WithBox, FirstCover, Mapped;
          MappedAgrees(t.value, max, c.value, a, page.value);
        }
      }
    }
  }

  lemma WithBoxCovers(s: State, k: nat, box: Option<nat>, a: nat)
    requires k < |s.areas| && Covers(s.areas[k], a)
    ensures WithBox(s, k, box).Some? ==> Covers(WithBox(s, k, box).value.areas[k], a)
  {
  }

  // Other address spaces, if they send no box that lists a page to the cache.
  lemma OthersAgrees(s: State, max: nat, mem: map<nat, Box>, cache: seq<nat>, theirs: map<nat, Box>)
    requires Agree(s, max) && OthersOk(s, max, mem, cache, theirs) && Clean(mem, cache)
    ensures Agree(OthersStep(s, mem, cache, theirs), max)
  {
    OthersSound(s, max, mem, cache, theirs);
    LiveNotNull(PageView(s.areas), s.mem, s.head, s.mmu, s.rmap);
    hide Sound, Books, OnPages, Clean, Cached, PageView;
    BooksMem(PageView(s.areas), s.mem, mem, s.head, s.mmu, s.rmap);
  }
}
