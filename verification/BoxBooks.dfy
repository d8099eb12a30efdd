// Which memory box holds which physical pages (krlvadrsmem.c): areas share boxes, a box lists the
// pages mapped inside its areas, and counts those areas.  Areas are counted in pages here, or in bytes
// where page lists play no part.
module BoxBooks {
  // An area of pages start .. end - 1 and its kva_kvmbox; 0 stands for NULL.
  datatype Area = Area(start: nat, end: nat, box: nat)

  // kvmemcbox_t: the reference count and the page list.
  datatype Box = Box(cont: int, msas: set<nat>)

  ghost predicate Sorted(v: seq<Area>) {
    && (forall k :: 0 <= k < |v| ==> v[k].start < v[k].end)
    && (forall k :: 0 < k < |v| ==> Follows(v, k))
  }

  predicate Follows(v: seq<Area>, k: nat)
    requires 0 < k < |v|
  {
    v[k - 1].end <= v[k].start
  }

  predicate Covers(a: Area, p: nat) { a.start <= p < a.end }

  lemma {:induction false} Before(v: seq<Area>, j: nat, k: nat)
    requires Sorted(v) && j < k < |v|
    ensures v[j].end <= v[k].start
  {
    assert Follows(v, k);
    if j + 1 < k {
      Before(v, j, k - 1);
    }
  }

  // The box of the area that page p lies in, 0 if there is none.
  function BoxAt(v: seq<Area>, p: nat): nat {
    if v == [] then 0
    else if Covers(v[|v| - 1], p) then v[|v| - 1].box
    else BoxAt(v[..|v| - 1], p)
  }

  lemma {:induction false} BoxAtConcat(v: seq<Area>, w: seq<Area>, p: nat)
    ensures BoxAt(v + w, p) == if exists k :: 0 <= k < |w| && Covers(w[k], p) then BoxAt(w, p) else BoxAt(v, p)
  {
    if w == [] {
      assert v + w == v;
    } else {
      var w' := w[..|w| - 1];
      assert (v + w)[..|v + w| - 1] == v + w';
      BoxAtConcat(v, w', p);
      if exists k :: 0 <= k < |w'| && Covers(w'[k], p) {
        var k :| 0 <= k < |w'| && Covers(w'[k], p);
        assert Covers(w[k], p);
      }
    }
  }

  // How many areas point at box b.
  function Users(v: seq<Area>, b: nat): nat {
    if v == [] then 0 else Users(v[..|v| - 1], b) + if v[|v| - 1].box == b then 1 else 0
  }

  lemma {:induction false} UsersConcat(v: seq<Area>, w: seq<Area>, b: nat)
    ensures Users(v + w, b) == Users(v, b) + Users(w, b)
  {
    if w == [] {
      assert v + w == v;
    } else {
      assert (v + w)[..|v + w| - 1] == v + w[..|w| - 1];
      UsersConcat(v, w[..|w| - 1], b);
    }
  }

  // ---- the two kinds of change to the list of areas ----

  // v with area k replaced by the areas mid.
  function Replaced(v: seq<Area>, k: nat, mid: seq<Area>): seq<Area>
    requires k < |v|
  {
    v[..k] + mid + v[k + 1..]
  }

  function Pieces(a: Area, start: nat, size: nat): seq<Area> {
    (if a.start < start then [a.(end := start)] else [])
    + (if start + size < a.end then [a.(start := start + size)] else [])
  }

  lemma ReplacedUsers(v: seq<Area>, k: nat, mid: seq<Area>, b: nat)
    requires k < |v|
    ensures Users(Replaced(v, k, mid), b) == Users(v, b) - (if v[k].box == b then 1 else 0) + Users(mid, b)
  {
    UsersConcat(v[..k], mid, b);
    UsersConcat(v[..k] + mid, v[k + 1..], b);
    assert v == v[..k] + [v[k]] + v[k + 1..];
    UsersConcat(v[..k], [v[k]], b);
    UsersConcat(v[..k] + [v[k]], v[k + 1..], b);
    assert [v[k]][..0] == [];
  }

  lemma NotElsewhere(v: seq<Area>, k: nat, p: nat)
    requires Sorted(v) && k < |v| && Covers(v[k], p)
    ensures forall j :: 0 <= j < |v| && j != k ==> !Covers(v[j], p)
  {
    forall j | 0 <= j < |v| && j != k ensures !Covers(v[j], p) {
      if j < k { Before(v, j, k); } else { Before(v, k, j); }
    }
  }

  lemma {:induction false} NoBoxAt(v: seq<Area>, p: nat)
    requires forall j :: 0 <= j < |v| ==> !Covers(v[j], p)
    ensures BoxAt(v, p) == 0
  {
    if v != [] { NoBoxAt(v[..|v| - 1], p); }
  }

  lemma {:induction false} SameBoxAt(v: seq<Area>, k: nat, p: nat)
    requires Sorted(v) && k < |v| && Covers(v[k], p)
    ensures BoxAt(v, p) == v[k].box
  {
    NotElsewhere(v, k, p);
    BoxAtPrefix(v, k, p);
  }

  lemma {:induction false} BoxAtPrefix(v: seq<Area>, k: nat, p: nat)
    requires k < |v| && Covers(v[k], p) && forall j :: k < j < |v| ==> !Covers(v[j], p)
    ensures BoxAt(v, p) == v[k].box
  {
    if k < |v| - 1 { BoxAtPrefix(v[..|v| - 1], k, p); }
  }

  // Replacing area k changes the box only of pages in it.
  lemma ReplacedOutside(v: seq<Area>, k: nat, mid: seq<Area>, p: nat)
    requires k < |v| && !Covers(v[k], p) && forall j :: 0 <= j < |mid| ==> !Covers(mid[j], p)
    ensures BoxAt(Replaced(v, k, mid), p) == BoxAt(v, p)
  {
    BoxAtConcat(v[..k], mid, p);
    BoxAtConcat(v[..k] + mid, v[k + 1..], p);
    assert v == v[..k] + [v[k]] + v[k + 1..];
    BoxAtConcat(v[..k], [v[k]], p);
    BoxAtConcat(v[..k] + [v[k]], v[k + 1..], p);
  }

  lemma ReplacedInside(v: seq<Area>, k: nat, mid: seq<Area>, p: nat)
    requires Sorted(v) && k < |v| && Covers(v[k], p)
    ensures BoxAt(Replaced(v, k, mid), p) == BoxAt(mid, p)
  {
    NotElsewhere(v, k, p);
    BoxAtConcat(v[..k], mid, p);
    BoxAtConcat(v[..k] + mid, v[k + 1..], p);
    NoBoxAt(v[..k], p);
    if forall j :: 0 <= j < |mid| ==> !Covers(mid[j], p) { NoBoxAt(mid, p); }
  }

  // After a deletion the pages of the range belong to no area; all others keep their box.
  lemma DeletedBoxAt(v: seq<Area>, k: nat, start: nat, size: nat, p: nat)
    requires Sorted(v) && k < |v| && v[k].start <= start && start + size <= v[k].end
    ensures BoxAt(Replaced(v, k, Pieces(v[k], start, size)), p)
         == if start <= p < start + size then 0 else BoxAt(v, p)
  {
    var mid := Pieces(v[k], start, size);
    if Covers(v[k], p) {
      ReplacedInside(v, k, mid, p);
      SameBoxAt(v, k, p);
      PiecesBoxAt(v[k], start, size, p);
    } else {
      ReplacedOutside(v, k, mid, p);
    }
  }

  lemma PiecesBoxAt(a: Area, start: nat, size: nat, p: nat)
    requires a.start <= start && start + size <= a.end && Covers(a, p)
    ensures BoxAt(Pieces(a, start, size), p) == if start <= p < start + size then 0 else a.box
  {
    var l := if a.start < start then [a.(end := start)] else [];
    var r := if start + size < a.end then [a.(start := start + size)] else [];
    BoxAtConcat(l, r, p);
    BoxAtOne(a.(end := start), p);
    BoxAtOne(a.(start := start + size), p);
    hide BoxAt;
    assert r == [] || (r[0] == a.(start := start + size) && |r| == 1);
  }

  lemma BoxAtOne(a: Area, p: nat)
    ensures BoxAt([a], p) == (if Covers(a, p) then a.box else 0) && BoxAt([], p) == 0
  {
    assert [a][..0] == [];
  }

  lemma PiecesUsers(a: Area, start: nat, size: nat, b: nat)
    requires a.start <= start && start + size <= a.end
    ensures Users(Pieces(a, start, size), b)
         == if a.box == b then (if a.start < start then 1 else 0) + (if start + size < a.end then 1 else 0) else 0
  {
    var l := if a.start < start then [a.(end := start)] else [];
    var r := if start + size < a.end then [a.(start := start + size)] else [];
    UsersConcat(l, r, b);
    assert l != [] ==> l[..0] == [];
    assert r != [] ==> r[..0] == [];
  }

  lemma DeletedSorted(v: seq<Area>, k: nat, start: nat, size: nat)
    requires Sorted(v) && k < |v| && v[k].start <= start && start + size <= v[k].end && size > 0
    ensures Sorted(Replaced(v, k, Pieces(v[k], start, size)))
  {
    var mid := Pieces(v[k], start, size);
    var w := Replaced(v, k, mid);
    var m := |mid|;
    assert forall j :: 0 <= j < |w| ==> w[j] == if j < k then v[j] else if j < k + m then mid[j - k] else v[j - m + 1];
    forall j | 0 < j < |w| ensures Follows(w, j) {
      if j < k {
        assert Follows(v, j);
      } else if j > k + m {
        assert Follows(v, j - m + 1);
      }
      if m == 0 && 0 < k && k + 1 < |v| { Before(v, k - 1, k + 1); }
      if 0 < k { assert Follows(v, k); }
      if k + 1 < |v| { assert Follows(v, k + 1); }
    }
  }

  // ---- the books ----

  // mmu maps pages to physical pages, rmap back.
  ghost predicate Inverse(mmu: map<nat, nat>, rmap: map<nat, nat>) {
    && (forall p :: p in mmu ==> mmu[p] in rmap && rmap[mmu[p]] == p)
    && (forall f :: f in rmap ==> rmap[f] in mmu && mmu[rmap[f]] == f)
  }

  // The page list of box b is exactly the pages mapped inside its areas.
  ghost predicate Lists(v: seq<Area>, msas: set<nat>, rmap: map<nat, nat>, b: nat) {
    forall f: nat :: f in msas <==> f in rmap && BoxAt(v, rmap[f]) == b
  }

  ghost predicate Books(v: seq<Area>, mem: map<nat, Box>, live: set<nat>, mmu: map<nat, nat>, rmap: map<nat, nat>) {
    && Inverse(mmu, rmap) && 0 !in live
    && (forall p :: p in mmu ==> BoxAt(v, p) in live)
    && (forall b :: b in live ==> b in mem && Lists(v, mem[b].msas, rmap, b))
  }

  // The count of a box in use is the number of areas pointing at it.
  ghost predicate Refs(v: seq<Area>, mem: map<nat, Box>, live: set<nat>) {
    && (forall b :: b in live ==> b in mem && mem[b].cont == Users(v, b) >= 1)
    && (forall k :: 0 <= k < |v| ==> v[k].box == 0 || v[k].box in live)
  }

  // Only the boxes of pages matter.
  lemma BooksSame(v: seq<Area>, w: seq<Area>, mem: map<nat, Box>, live: set<nat>, mmu: map<nat, nat>, rmap: map<nat, nat>)
    requires Books(v, mem, live, mmu, rmap) && forall p: nat :: BoxAt(w, p) == BoxAt(v, p)
    ensures Books(w, mem, live, mmu, rmap)
  {
    hide BoxAt;
  }

  // A page fault puts page f behind the unmapped page p.
  lemma MapBooks(v: seq<Area>, mem: map<nat, Box>, live: set<nat>, mmu: map<nat, nat>, rmap: map<nat, nat>, p: nat, f: nat)
    requires Books(v, mem, live, mmu, rmap) && p !in mmu && f !in rmap && BoxAt(v, p) in live
    ensures var b := BoxAt(v, p);
      Books(v, mem[b := mem[b].(msas := mem[b].msas + {f})], live, mmu[p := f], rmap[f := p])
  {
    hide BoxAt;
  }

  // Page p leaves its area: it is unmapped and its physical page leaves the box's list.
  lemma UnmapBooks(v: seq<Area>, w: seq<Area>, mem: map<nat, Box>, live: set<nat>, mmu: map<nat, nat>, rmap: map<nat, nat>, p: nat)
    requires Books(v, mem, live, mmu, rmap)
    requires forall q: nat :: BoxAt(w, q) == if q == p then 0 else BoxAt(v, q)
    ensures p !in mmu ==> Books(w, mem, live, mmu, rmap)
    ensures p in mmu ==>
              var b := BoxAt(v, p);
              && b in live && b in mem && mmu[p] in mem[b].msas
              && Books(w, mem[b := mem[b].(msas := mem[b].msas - {mmu[p]})], live, mmu - {p}, rmap - {mmu[p]})
  {
    hide BoxAt;
    if p in mmu {
      var b := BoxAt(v, p);
      assert Lists(v, mem[b].msas, rmap, b);
    }
  }

  // An area without a box gets one: there is no page mapped in it.
  lemma AssignBooks(v: seq<Area>, mem: map<nat, Box>, live: set<nat>, mmu: map<nat, nat>, rmap: map<nat, nat>, k: nat, b: nat)
    requires Sorted(v) && Books(v, mem, live, mmu, rmap) && Refs(v, mem, live)
    requires k < |v| && v[k].box == 0 && b !in live && b != 0
    ensures Books(v[k := v[k].(box := b)], mem[b := Box(1, {})], live + {b}, mmu, rmap)
  {
    var w := v[k := v[k].(box := b)];
    forall p: nat ensures BoxAt(w, p) == if Covers(v[k], p) then b else BoxAt(v, p) {
      AssignBoxAt(v, k, b, p);
    }
    forall p | p in mmu ensures !Covers(v[k], p) {
      if Covers(v[k], p) { SameBoxAt(v, k, p); }
    }
    forall p: nat ensures BoxAt(v, p) != b {
      BoxAtIsLive(v, mem, live, p);
    }
    hide BoxAt, Covers;
  }

  lemma AssignBoxAt(v: seq<Area>, k: nat, b: nat, p: nat)
    requires Sorted(v) && k < |v|
    ensures var w := v[k := v[k].(box := b)];
      BoxAt(w, p) == if Covers(v[k], p) then b else BoxAt(v, p)
  {
    var w := v[k := v[k].(box := b)];
    assert w == Replaced(v, k, [v[k].(box := b)]);
    if Covers(v[k], p) {
      ReplacedInside(v, k, [v[k].(box := b)], p);
    } else {
      ReplacedOutside(v, k, [v[k].(box := b)], p);
    }
  }

  lemma {:induction false} BoxAtIsLive(v: seq<Area>, mem: map<nat, Box>, live: set<nat>, p: nat)
    requires forall k :: 0 <= k < |v| ==> v[k].box == 0 || v[k].box in live
    ensures BoxAt(v, p) == 0 || BoxAt(v, p) in live
  {
    if v != [] { BoxAtIsLive(v[..|v| - 1], mem, live, p); }
  }

  lemma {:induction false} NoUsers(v: seq<Area>, b: nat)
    requires forall k :: 0 <= k < |v| ==> v[k].box != b
    ensures Users(v, b) == 0
  {
    if v != [] { NoUsers(v[..|v| - 1], b); }
  }

  lemma AssignRefs(v: seq<Area>, mem: map<nat, Box>, live: set<nat>, k: nat, b: nat)
    requires Refs(v, mem, live) && k < |v| && v[k].box == 0 && b !in live && b != 0
    requires 0 !in live
    ensures Refs(v[k := v[k].(box := b)], mem[b := Box(1, {})], live + {b})
  {
    var w := v[k := v[k].(box := b)];
    assert w == Replaced(v, k, [v[k].(box := b)]);
    NoUsers(v, b);
    forall c | c in live + {b} ensures Users(w, c) == if c == b then 1 else Users(v, c) {
      ReplacedUsers(v, k, [v[k].(box := b)], c);
      assert [v[k].(box := b)][..0] == [];
    }
  }

  // Nobody points at box b any more: its list is empty.
  lemma UnusedEmpty(v: seq<Area>, mem: map<nat, Box>, live: set<nat>, mmu: map<nat, nat>, rmap: map<nat, nat>, b: nat)
    requires Books(v, mem, live, mmu, rmap) && b in live && Users(v, b) == 0
    ensures mem[b].msas == {}
    ensures Books(v, mem, live - {b}, mmu, rmap)
  {
    forall p: nat ensures BoxAt(v, p) != b {
      UsedAt(v, b, p);
    }
    hide BoxAt;
    assert Lists(v, mem[b].msas, rmap, b);
  }

  lemma {:induction false} UsedAt(v: seq<Area>, b: nat, p: nat)
    requires b != 0 && Users(v, b) == 0
    ensures BoxAt(v, p) != b
  {
    if v != [] { UsedAt(v[..|v| - 1], b, p); }
  }

  // ---- deletion, growth and faults, seen by books and counts ----

  // Deleting part of area k, seen by the counts.
  lemma DeletedRefs(v: seq<Area>, k: nat, start: nat, size: nat, mem: map<nat, Box>, head: set<nat>, mem': map<nat, Box>)
    requires Refs(v, mem, head) && k < |v| && v[k].start <= start && start + size <= v[k].end
    requires var b := v[k].box; var n := |Pieces(v[k], start, size)|;
      && n >= 1
      && (forall c :: c in head ==> c in mem' && mem'[c].cont == mem[c].cont + if c == b then n - 1 else 0)
    ensures Refs(Replaced(v, k, Pieces(v[k], start, size)), mem', head)
  {
    var mid := Pieces(v[k], start, size);
    var w := Replaced(v, k, mid);
    forall c | c in head ensures Users(w, c) == Users(v, c) + if c == v[k].box then |mid| - 1 else 0 {
      ReplacedUsers(v, k, mid, c);
      PiecesUsers(v[k], start, size, c);
    }
    forall j | 0 <= j < |w| ensures w[j].box == 0 || w[j].box in head {
      assert j < k ==> w[j] == v[j];
      assert k <= j < k + |mid| ==> w[j] == mid[j - k];
      assert j >= k + |mid| ==> w[j] == v[j - |mid| + 1];
    }
  }

  // The last piece of area k goes: its box loses one user.
  lemma RemovedRefs(v: seq<Area>, k: nat, mem: map<nat, Box>, head: set<nat>)
    requires Refs(v, mem, head) && k < |v|
    ensures var b := v[k].box; var w := Replaced(v, k, []);
      && (forall c :: c in head ==> Users(w, c) == mem[c].cont - if c == b then 1 else 0)
      && (forall j :: 0 <= j < |w| ==> w[j].box == 0 || w[j].box in head)
      && (b in head && mem[b].cont == 1 ==> forall j :: 0 <= j < |w| ==> w[j].box != b)
  {
    var b := v[k].box;
    var w := Replaced(v, k, []);
    forall c | c in head ensures Users(w, c) == mem[c].cont - if c == b then 1 else 0 {
      ReplacedUsers(v, k, [], c);
    }
    forall j | 0 <= j < |w| ensures w[j] == v[if j < k then j else j + 1] {
    }
    if b in head && mem[b].cont == 1 {
      forall j | 0 <= j < |w| ensures w[j].box != b {
        if w[j].box == b { UserCounted(w, b, j); }
      }
    }
  }

  lemma {:induction false} UserCounted(v: seq<Area>, b: nat, j: nat)
    requires j < |v| && v[j].box == b
    ensures Users(v, b) >= 1
  {
    if j < |v| - 1 { UserCounted(v[..|v| - 1], b, j); }
  }

  function Grown(a: Area, start: nat, size: nat, merge: bool): seq<Area> {
    if merge then [a.(end := a.end + size)] else [a, Area(start, start + size, 0)]
  }

  lemma GrownAt(v: seq<Area>, k: nat, start: nat, size: nat, merge: bool, p: nat)
    requires Sorted(v) && k < |v| && v[k].end <= start && (merge ==> start == v[k].end)
    requires k + 1 < |v| ==> start + size <= v[k + 1].start
    ensures var w := Replaced(v, k, Grown(v[k], start, size, merge));
      (start <= p < start + size && BoxAt(v, p) == 0) || (!(start <= p < start + size) && BoxAt(w, p) == BoxAt(v, p))
  {
    var mid := Grown(v[k], start, size, merge);
    if start <= p < start + size {
      forall j | 0 <= j < |v| ensures !Covers(v[j], p) {
        if j < k { Before(v, j, k); }
        if j > k + 1 { Before(v, k + 1, j); }
      }
      NoBoxAt(v, p);
    } else if Covers(v[k], p) {
      ReplacedInside(v, k, mid, p);
      SameBoxAt(v, k, p);
      BoxAtPrefix(mid, 0, p);
    } else {
      ReplacedOutside(v, k, mid, p);
    }
  }

  lemma NewBooks(v: seq<Area>, k: nat, start: nat, size: nat, merge: bool,
                 mem: map<nat, Box>, head: set<nat>, mmu: map<nat, nat>, rmap: map<nat, nat>)
    requires Sorted(v) && Books(v, mem, head, mmu, rmap) && Refs(v, mem, head) && k < |v| && size > 0
    requires v[k].end <= start && (merge ==> start == v[k].end)
    requires k + 1 < |v| ==> start + size <= v[k + 1].start
    ensures var w := Replaced(v, k, Grown(v[k], start, size, merge));
      Sorted(w) && Books(w, mem, head, mmu, rmap) && Refs(w, mem, head)
  {
    var w := Replaced(v, k, Grown(v[k], start, size, merge));
    GrownSorted(v, k, start, size, merge);
    GrownRefs(v, k, start, size, merge, mem, head);
    hide Refs, Replaced, Grown, Sorted;
    forall p: nat ensures (start <= p < start + size && BoxAt(v, p) == 0)
                          || (!(start <= p < start + size) && BoxAt(w, p) == BoxAt(v, p)) {
      GrownAt(v, k, start, size, merge, p);
    }
    hide BoxAt;
    assert forall p :: p in mmu ==> BoxAt(w, p) == BoxAt(v, p);
    forall b | b in head ensures b in mem && Lists(w, mem[b].msas, rmap, b) {
      assert Lists(v, mem[b].msas, rmap, b);
    }
  }

  lemma GrownSorted(v: seq<Area>, k: nat, start: nat, size: nat, merge: bool)
    requires Sorted(v) && k < |v| && v[k].end <= start && (merge ==> start == v[k].end) && size > 0
    requires k + 1 < |v| ==> start + size <= v[k + 1].start
    ensures Sorted(Replaced(v, k, Grown(v[k], start, size, merge)))
  {
    var mid := Grown(v[k], start, size, merge);
    var w := Replaced(v, k, mid);
    assert forall j :: 0 <= j < |w| ==> w[j] == if j < k then v[j] else if j < k + |mid| then mid[j - k] else v[j - |mid| + 1];
    forall j | 0 < j < |w| ensures Follows(w, j) {
      if j <= k {
        assert Follows(v, j);
      } else if j > k + |mid| {
        assert Follows(v, j - |mid| + 1);
      }
    }
  }

  lemma UsersOne(a: Area, c: nat)
    ensures Users([a], c) == if a.box == c then 1 else 0
  {
    assert [a][..0] == [];
  }

  lemma GrownRefs(v: seq<Area>, k: nat, start: nat, size: nat, merge: bool, mem: map<nat, Box>, head: set<nat>)
    requires Refs(v, mem, head) && k < |v| && 0 !in head
    ensures Refs(Replaced(v, k, Grown(v[k], start, size, merge)), mem, head)
  {
    var mid := Grown(v[k], start, size, merge);
    var w := Replaced(v, k, mid);
    forall c | c in head ensures Users(w, c) == Users(v, c) {
      ReplacedUsers(v, k, mid, c);
      if merge {
        UsersOne(mid[0], c);
      } else {
        UsersOne(mid[0], c);
        UsersOne(mid[1], c);
        assert mid == [mid[0]] + [mid[1]];
        UsersConcat([mid[0]], [mid[1]], c);
      }
    }
    assert forall j :: 0 <= j < |w| ==> w[j] == if j < k then v[j] else if j < k + |mid| then mid[j - k] else v[j - |mid| + 1];
  }

  lemma AssignSorted(v: seq<Area>, k: nat, b: nat)
    requires Sorted(v) && k < |v|
    ensures Sorted(v[k := v[k].(box := b)])
  {
    var w := v[k := v[k].(box := b)];
    forall j | 0 < j < |w| ensures Follows(w, j) {
      assert Follows(v, j);
    }
  }

  lemma BooksMem(v: seq<Area>, mem: map<nat, Box>, mem': map<nat, Box>, head: set<nat>, mmu: map<nat, nat>, rmap: map<nat, nat>)
    requires Books(v, mem, head, mmu, rmap) && forall b :: b in head && b in mem ==> b in mem' && mem'[b].msas == mem[b].msas
    ensures Books(v, mem', head, mmu, rmap)
  {
  }

  // Area k is unmapped and about to be unlinked; if it was its box's last one, the box lists no page.
  lemma WholeGone(v: seq<Area>, k: nat, mem: map<nat, Box>, head: set<nat>, mmu: map<nat, nat>, rmap: map<nat, nat>)
    requires k < |v| && Refs(v, mem, head) && Books(Replaced(v, k, []), mem, head, mmu, rmap)
    ensures var b := v[k].box; b in head && b in mem && mem[b].cont <= 1 ==> mem[b].msas == {}
  {
    RemovedRefs(v, k, mem, head);
    var b := v[k].box;
    if b in head && mem[b].cont <= 1 {
      UnusedEmpty(Replaced(v, k, []), mem, head, mmu, rmap, b);
    }
  }

  lemma WholeDone(v: seq<Area>, k: nat, mem: map<nat, Box>, head: set<nat>, mem': map<nat, Box>, head': set<nat>,
                  mmu: map<nat, nat>, rmap: map<nat, nat>)
    requires k < |v| && Refs(v, mem, head) && Books(Replaced(v, k, []), mem, head, mmu, rmap)
    requires var b := v[k].box;
      if b == 0 then mem' == mem && head' == head
      else b in mem && b in head && if mem[b].cont > 1 then mem' == mem[b := mem[b].(cont := mem[b].cont - 1)] && head' == head
           else head' == head - {b} && forall c :: c in mem && c != b ==> c in mem' && mem'[c] == mem[c]
    ensures Refs(Replaced(v, k, []), mem', head') && Books(Replaced(v, k, []), mem', head', mmu, rmap)
  {
    var b := v[k].box;
    var w := Replaced(v, k, []);
    RemovedRefs(v, k, mem, head);
    LiveNotNull(w, mem, head, mmu, rmap);
    hide Replaced;
    if b != 0 && mem[b].cont <= 1 {
      UnusedEmpty(w, mem, head, mmu, rmap, b);
    }
    hide Books;
    BooksMem(w, mem, mem', head', mmu, rmap);
  }

  lemma StillBooks(v: seq<Area>, mem: map<nat, Box>, head: set<nat>, mmu: map<nat, nat>, rmap: map<nat, nat>, k: nat, start: nat)
    requires Sorted(v) && Books(v, mem, head, mmu, rmap) && k < |v| && v[k].start <= start <= v[k].end
    ensures Books(Replaced(v, k, Pieces(v[k], start, 0)), mem, head, mmu, rmap)
  {
    hide Books, Sorted, Pieces, Replaced, BoxAt;
    var w := Replaced(v, k, Pieces(v[k], start, 0));
    forall p: nat ensures BoxAt(w, p) == BoxAt(v, p) {
      DeletedBoxAt(v, k, start, 0, p);
    }
    BooksSame(v, w, mem, head, mmu, rmap);
  }

  // One turn of the unmapping loop.
  lemma UnmapOne(v: seq<Area>, mem: map<nat, Box>, head: set<nat>, mmu: map<nat, nat>, rmap: map<nat, nat>, k: nat, start: nat, p: nat)
    requires Sorted(v) && k < |v| && v[k].start <= start <= p < v[k].end
    requires Books(Replaced(v, k, Pieces(v[k], start, p - start)), mem, head, mmu, rmap)
    ensures var w := Replaced(v, k, Pieces(v[k], start, p + 1 - start)); var b := v[k].box;
      && (p !in mmu ==> Books(w, mem, head, mmu, rmap))
      && (p in mmu ==> && b != 0 && b in mem && mmu[p] in mem[b].msas
                       && Books(w, mem[b := mem[b].(msas := mem[b].msas - {mmu[p]})], head, mmu - {p}, rmap - {mmu[p]}))
  {
    var v1 := Replaced(v, k, Pieces(v[k], start, p - start));
    var w := Replaced(v, k, Pieces(v[k], start, p + 1 - start));
    SameBoxAt(v, k, p);
    LiveNotNull(v1, mem, head, mmu, rmap);
    hide Books, Sorted, Pieces, Replaced, BoxAt;
    forall q: nat ensures BoxAt(w, q) == if q == p then 0 else BoxAt(v1, q) {
      DeletedBoxAt(v, k, start, p + 1 - start, q);
      DeletedBoxAt(v, k, start, p - start, q);
    }
    DeletedBoxAt(v, k, start, p - start, p);
    UnmapBooks(v1, w, mem, head, mmu, rmap, p);
  }

  lemma LiveNotNull(v: seq<Area>, mem: map<nat, Box>, head: set<nat>, mmu: map<nat, nat>, rmap: map<nat, nat>)
    requires Books(v, mem, head, mmu, rmap)
    ensures 0 !in head && forall b :: b in head ==> b in mem
  {
  }

  // ---- unmapping a row of pages ----

  function Row(sp: nat, n: nat): (r: set<nat>)
    ensures forall p: nat :: p in r <==> sp <= p < sp + n
  {
    if n == 0 then {} else Row(sp, n - 1) + {sp + (n - 1)}
  }

  // The physical pages behind a set of pages.
  function Frames(mmu: map<nat, nat>, ps: set<nat>): set<nat> { set p | p in mmu && p in ps :: mmu[p] }

  // They leave the list of box b, if there is one.
  function Dropped(mem: map<nat, Box>, b: nat, fs: set<nat>): map<nat, Box> {
    if b == 0 || b !in mem then mem else mem[b := mem[b].(msas := mem[b].msas - fs)]
  }

  lemma RowNext(mmu: map<nat, nat>, sp: nat, n: nat)
    ensures Row(sp, n + 1) == Row(sp, n) + {sp + n}
    ensures mmu - Row(sp, n + 1) == mmu - Row(sp, n) - {sp + n}
    ensures Frames(mmu, Row(sp, n + 1)) == Frames(mmu, Row(sp, n)) + if sp + n in mmu then {mmu[sp + n]} else {}
  {
    var one := if sp + n in mmu then {mmu[sp + n]} else {};
    assert Row(sp, n + 1) == Row(sp, n) + {sp + n};
    hide Row;
    forall f | f in Frames(mmu, Row(sp, n + 1)) ensures f in Frames(mmu, Row(sp, n)) + one {
      var p :| p in mmu && p in Row(sp, n + 1) && mmu[p] == f;
    }
    forall f | f in Frames(mmu, Row(sp, n)) + one ensures f in Frames(mmu, Row(sp, n + 1)) {
      if f in Frames(mmu, Row(sp, n)) {
        var p :| p in mmu && p in Row(sp, n) && mmu[p] == f;
        assert p in Row(sp, n + 1);
      }
    }
  }

  lemma RowNone(mem: map<nat, Box>, mmu: map<nat, nat>, b: nat, sp: nat)
    ensures Row(sp, 0) == {} && mmu - Row(sp, 0) == mmu && Frames(mmu, Row(sp, 0)) == {}
    ensures Dropped(mem, b, {}) == mem
  {
    if b != 0 && b in mem {
      assert mem[b].(msas := mem[b].msas - {}) == mem[b];
    }
  }

  lemma DroppedMore(mem: map<nat, Box>, b: nat, fs: set<nat>, gs: set<nat>)
    ensures Dropped(Dropped(mem, b, fs), b, gs) == Dropped(mem, b, fs + gs)
  {
    if b != 0 && b in mem {
      assert mem[b].msas - fs - gs == mem[b].msas - (fs + gs);
      var x := mem[b].(msas := mem[b].msas - fs);
      assert mem[b := x][b] == x;
    }
  }

  // Unmapping all pages of a part of area k.
  lemma {:induction false} SweepBooks(v: seq<Area>, mem: map<nat, Box>, head: set<nat>, mmu: map<nat, nat>, rmap: map<nat, nat>, k: nat, sp: nat, n: nat)
    requires Sorted(v) && Books(v, mem, head, mmu, rmap) && k < |v| && v[k].start <= sp && sp + n <= v[k].end
    ensures var fs := Frames(mmu, Row(sp, n));
      Books(Replaced(v, k, Pieces(v[k], sp, n)), Dropped(mem, v[k].box, fs), head, mmu - Row(sp, n), rmap - fs)
  {
    hide Sorted, Books, Pieces, Replaced, Frames, Row, Dropped;
    if n == 0 {
      RowNone(mem, mmu, v[k].box, sp);
      StillBooks(v, mem, head, mmu, rmap, k, sp);
      assert rmap - {} == rmap;
    } else {
      var p := sp + (n - 1);
      SweepBooks(v, mem, head, mmu, rmap, k, sp, n - 1);
      var fs := Frames(mmu, Row(sp, n - 1));
      var mem1 := Dropped(mem, v[k].box, fs);
      UnmapOne(v, mem1, head, mmu - Row(sp, n - 1), rmap - fs, k, sp, p);
      RowNext(mmu, sp, n - 1);
      NotInRow(sp, n - 1);
      if p in mmu {
        assert (mmu - Row(sp, n - 1))[p] == mmu[p];
        DroppedIs(mem1, v[k].box, mmu[p]);
        DroppedMore(mem, v[k].box, fs, {mmu[p]});
        assert rmap - fs - {mmu[p]} == rmap - (fs + {mmu[p]});
      } else {
        assert fs + {} == fs && mmu - Row(sp, n - 1) - {p} == mmu - Row(sp, n - 1);
      }
    }
  }

  lemma NotInRow(sp: nat, n: nat)
    ensures sp + n !in Row(sp, n)
  {
  }

  lemma DroppedIs(mem: map<nat, Box>, b: nat, f: nat)
    requires b != 0 && b in mem
    ensures Dropped(mem, b, {f}) == mem[b := mem[b].(msas := mem[b].msas - {f})]
  {
  }
}
