// The address space of a Cosmos process: a linked list of area descriptors with a search hint
// (krlvadrsmem.c).  Addresses and sizes are taken not to wrap around.
module VAdrs {
  import opened Params
  import opened AddrMap

  const PAGE: nat := 0x1000
  const USER_END: nat := 0x7fff_ffff_ffff

  // The first area from index k on that takes the request.
  function FirstFit(v: seq<Iv>, k: nat, start: nat, size: nat, hi: nat): (r: Option<nat>)
    requires k <= |v|
    ensures r.Some? ==> k <= r.value < |v| && Fits(v, r.value, start, size, hi)
    ensures r.None? <==> forall j :: k <= j < |v| ==> !Fits(v, j, start, size, hi)
    ensures r.Some? ==> forall j :: k <= j < r.value ==> !Fits(v, j, start, size, hi)
    decreases |v| - k
  {
    if k == |v| then None
    else if Fits(v, k, start, size, hi) then Some(k)
    else FirstFit(v, k + 1, start, size, hi)
  }

  // The hint is tried before the list is searched.
  function Choice(v: seq<Iv>, hint: Option<nat>, start: nat, size: nat, hi: nat): (r: Option<nat>)
    requires hint.Some? ==> hint.value < |v|
    ensures r.Some? ==> r.value < |v| && Fits(v, r.value, start, size, hi)
    ensures r.Some? <==> SomeFits(v, start, size, hi)
    ensures r.Some? && r != hint ==> forall j :: 0 <= j < r.value ==> !Fits(v, j, start, size, hi)
    ensures hint.Some? && Fits(v, hint.value, start, size, hi) ==> r == hint
  {
    if hint.Some? && Fits(v, hint.value, start, size, hi) then hint else FirstFit(v, 0, start, size, hi)
  }

  // VADSZ_ALIGN
  function AlignUp(x: nat): nat { (x + PAGE - 1) / PAGE * PAGE }

  lemma AlignUpMeans(x: nat)
    ensures x <= AlignUp(x) < x + 0x1000 && AlignUp(x) % 0x1000 == 0
  {
  }

  // ---- what the hint can change ----

  // A request succeeds if some area is chosen and, when it does not merge, a descriptor is left.
  predicate Succeeds(v: seq<Iv>, hint: Option<nat>, start: nat, size: nat, limits: nat, typ: nat, hi: nat, avail: bool)
    requires hint.Some? ==> hint.value < |v|
  {
    && size >= PAGE && start + size <= hi
    && var c := Choice(v, hint, start, size, hi);
       c.Some? && (avail || Merges(v[c.value], start, limits, typ))
  }

  lemma FixedChoice(v: seq<Iv>, start: nat, size: nat, hi: nat, j: nat, k: nat)
    requires Ordered(v, hi) && start > 0 && size > 0 && j < k < |v| && Fits(v, j, start, size, hi)
    ensures !Fits(v, k, start, size, hi)
  {
    if j + 1 < k { Before(v, hi, j + 1, k); }
  }

  // With a descriptor left, or for a fixed address, success does not depend on the hint.
  lemma HintIrrelevant(v: seq<Iv>, h1: Option<nat>, h2: Option<nat>, start: nat, size: nat,
                       limits: nat, typ: nat, hi: nat, avail: bool)
    requires Ordered(v, hi) && (h1.Some? ==> h1.value < |v|) && (h2.Some? ==> h2.value < |v|)
    requires avail || start > 0
    ensures Succeeds(v, h1, start, size, limits, typ, hi, avail) <==> Succeeds(v, h2, start, size, limits, typ, hi, avail)
    ensures start > 0 && size > 0 ==> Choice(v, h1, start, size, hi) == Choice(v, h2, start, size, hi)
  {
    if start > 0 && size > 0 {
      var c1, c2 := Choice(v, h1, start, size, hi), Choice(v, h2, start, size, hi);
      if c1.Some? && c2.Some? && c1 != c2 {
        var j := if c1.value < c2.value then c1.value else c2.value;
        FixedChoice(v, start, size, hi, j, c1.value + c2.value - j);
      }
    }
  }

  predicate HintOk(v: seq<Iv>, h: Option<nat>) { h.Some? ==> h.value < |v| }

  // No hint changes whether the request succeeds.
  ghost predicate AnyHint(v: seq<Iv>, start: nat, size: nat, limits: nat, typ: nat, hi: nat, avail: bool) {
    forall h1, h2 :: HintOk(v, h1) && HintOk(v, h2) ==>
      (Succeeds(v, h1, start, size, limits, typ, hi, avail) <==> Succeeds(v, h2, start, size, limits, typ, hi, avail))
  }

  // All areas whose gap takes the request would merge with it, or none would.
  predicate FitsAgree(v: seq<Iv>, start: nat, size: nat, limits: nat, typ: nat, hi: nat) {
    forall j, k :: 0 <= j < |v| && 0 <= k < |v| && Fits(v, j, start, size, hi) && Fits(v, k, start, size, hi) ==>
      (Merges(v[j], start, limits, typ) <==> Merges(v[k], start, limits, typ))
  }

  // The hint cannot change whether a request succeeds exactly if a descriptor is left, the address is
  // fixed, the request is refused outright, or the areas that take it all merge with it or none does.
  lemma HintIrrelevantIff(v: seq<Iv>, start: nat, size: nat, limits: nat, typ: nat, hi: nat, avail: bool)
    requires Ordered(v, hi)
    ensures AnyHint(v, start, size, limits, typ, hi, avail)
       <==> avail || start > 0 || size < PAGE || start + size > hi || FitsAgree(v, start, size, limits, typ, hi)
  {
    forall h1, h2 | HintOk(v, h1) && HintOk(v, h2) && (avail || start > 0)
      ensures Succeeds(v, h1, start, size, limits, typ, hi, avail) <==> Succeeds(v, h2, start, size, limits, typ, hi, avail)
    {
      HintIrrelevant(v, h1, h2, start, size, limits, typ, hi, avail);
    }
    if AnyHint(v, start, size, limits, typ, hi, avail) && !avail && size >= PAGE && start + size <= hi {
      forall j, k | 0 <= j < |v| && 0 <= k < |v| && Fits(v, j, start, size, hi) && Fits(v, k, start, size, hi)
        ensures Merges(v[j], start, limits, typ) <==> Merges(v[k], start, limits, typ)
      {
        assert Choice(v, Some(j), start, size, hi) == Some(j) && Choice(v, Some(k), start, size, hi) == Some(k);
        assert HintOk(v, Some(j)) && HintOk(v, Some(k));
        assert Succeeds(v, Some(j), start, size, limits, typ, hi, avail)
          <==> Succeeds(v, Some(k), start, size, limits, typ, hi, avail);
      }
    }
  }

  // A list and a request where it does: behind the hinted area the request needs a descriptor, behind
  // the first area it would merge.
  lemma HintMatters()
    ensures var v := [Iv(0x1000, 0x5000, 0, 0), Iv(0x9000, 0xA000, 7, 0), Iv(0x20000, 0x30000, 0, 0)];
      && Ordered(v, 0x40000)
      && Succeeds(v, None, 0, 0x1000, 0, 0, 0x40000, false)
      && !Succeeds(v, Some(1), 0, 0x1000, 0, 0, 0x40000, false)
  {
    var v := [Iv(0x1000, 0x5000, 0, 0), Iv(0x9000, 0xA000, 7, 0), Iv(0x20000, 0x30000, 0, 0)];
    assert Fits(v, 0, 0, 0x1000, 0x40000) && FirstFit(v, 0, 0, 0x1000, 0x40000) == Some(0);
    assert Fits(v, 1, 0, 0x1000, 0x40000) && Choice(v, Some(1), 0, 0x1000, 0x40000) == Some(1);
  }

  // ---- deletion as a step on the list ----

  // A deletion for which vma_del_vadrs looks for an area.
  predicate Asks(start: nat, size: nat) { start != 0 && size >= 1 }

  datatype Request = Request(start: nat, size: nat, avail: bool)

  // The list that VirMem.Del leaves.
  function DelStep(v: seq<Iv>, q: Request): seq<Iv> {
    var c := FirstInside(v, 0, q.start, AlignUp(q.size));
    if Asks(q.start, q.size) && c.Some?
       && (q.avail || v[c.value].start == q.start || v[c.value].end == q.start + AlignUp(q.size))
    then Deleted(v, c.value, q.start, AlignUp(q.size))
    else v
  }

  // ---- descriptors ----

  class Area {
    var start: nat
    var end: nat
    var limits: nat
    var typ: nat

    constructor (s: nat, e: nat, l: nat, t: nat)
      ensures start == s && end == e && limits == l && typ == t
    {
      start, end, limits, typ := s, e, l, t;
    }

    function Interval(): Iv
      reads this
    {
      Iv(start, end, limits, typ)
    }
  }

  ghost function Views(l: seq<Area>): (v: seq<Iv>)
    reads l
    ensures |v| == |l| && forall k :: 0 <= k < |l| ==> v[k] == l[k].Interval()
  {
    if l == [] then [] else Views(l[..|l| - 1]) + [l[|l| - 1].Interval()]
  }

  ghost predicate NoDup(l: seq<Area>) {
    forall j, k :: 0 <= j < k < |l| ==> l[j] != l[k]
  }

  // Position of a node in the list.
  function IndexOf(l: seq<Area>, x: Area): (k: nat)
    requires x in l
    ensures k < |l| && l[k] == x
  {
    if l[|l| - 1] == x then |l| - 1 else IndexOf(l[..|l| - 1], x)
  }

  lemma CutFacts(l: seq<Area>, k: nat)
    requires NoDup(l) && k < |l|
    ensures var w := l[..k] + l[k + 1..];
      NoDup(w) && Views(w) == Views(l)[..k] + Views(l)[k + 1..] && forall x :: x in w ==> x in l && x != l[k]
  {
    var w := l[..k] + l[k + 1..];
    assert Views(w) == Views(l)[..k] + Views(l)[k + 1..];
  }

  // x comes right behind element k.
  function After<T>(l: seq<T>, k: nat, x: T): (w: seq<T>)
    requires k < |l|
    ensures |w| == |l| + 1
  {
    l[..k + 1] + [x] + l[k + 1..]
  }

  lemma AfterHas<T>(l: seq<T>, k: nat, x: T)
    requires k < |l|
    ensures forall y :: y in After(l, k, x) <==> y == x || y in l
  {
    assert l == l[..k + 1] + l[k + 1..];
  }

  lemma AfterAt<T>(l: seq<T>, k: nat, x: T, j: nat)
    requires k < |l| && j <= |l|
    ensures After(l, k, x)[j] == if j <= k then l[j] else if j == k + 1 then x else l[j - 1]
  {
  }

  lemma AddFacts(l: seq<Area>, k: nat, n: Area)
    requires NoDup(l) && k < |l| && n !in l
    ensures var w := After(l, k, n); NoDup(w) && Views(w) == After(Views(l), k, n.Interval())
  {
    hide After, Views;
    var w := After(l, k, n);
    forall j | 0 <= j < |w| ensures Views(w)[j] == After(Views(l), k, n.Interval())[j] {
      AfterAt(l, k, n, j);
      AfterAt(Views(l), k, n.Interval(), j);
    }
    forall i, j | 0 <= i < j < |w| ensures w[i] != w[j] {
      AfterAt(l, k, n, i);
      AfterAt(l, k, n, j);
    }
  }

  // Where the hint is after a deletion in area k of l0: behind a deleted area, or at the end if that was
  // the last one; at what is left above a deleted middle; and where it was if only a bound has moved.
  predicate HintMoved(l0: seq<Area>, c0: Area?, k: nat, whole: bool, middle: bool, l: seq<Area>, c: Area?) {
    if whole then c == (if l == [] then null else if k < |l| then l[k] else l[|l| - 1])
    else if middle then k + 1 < |l| && c == l[k + 1]
    else l == l0 && c == c0
  }

  class VirMem {
    var list: seq<Area>       // vs_list
    var curr: Area?           // vs_currkmvdsc, the hint
    var last: Area?           // vs_endkmvdsc
    var nr: int               // vs_kmvdscnr, without the wrap below 0
    ghost var drift: nat      // areas that vma_new_vadrs_core added without counting them
    const isalcend: nat

    ghost predicate Valid()
      reads this, list
    {
      && NoDup(list) && Ordered(Views(list), isalcend)
      && (curr != null ==> curr in list)
      && last == (if list == [] then null else list[|list| - 1])
      && nr + drift == |list|
    }

    ghost function Hint(): (h: Option<nat>)
      reads this
      ensures h.Some? ==> h.value < |list|
    {
      if curr == null || curr !in list then None else Some(IndexOf(list, curr))
    }

    // kvma_inituserspace_virmemadrs: an area for the program and one for the stack.
    constructor ()
      ensures Valid() && fresh(list) && isalcend == USER_END && nr == |list| == 2 && curr == null
      ensures Views(list) == [Iv(0x1000, 0x5000, 0, 0), Iv(0x7fff_c000_0000, USER_END, 0, 0)]
    {
      var kmvdc := new Area(0x1000, 0x1000 + 0x4000, 0, 0);
      var stack := new Area(0x7fff_c000_0000, USER_END, 0, 0);   // PAGE_ALIGN(USER_END - 0x40000000)
      isalcend := USER_END;
      list, curr, last := [kmvdc, stack], null, stack;
      nr, drift := 2, 0;
      new;
      assert Views(list) == [Iv(0x1000, 0x5000, 0, 0), Iv(0x7fff_c000_0000, USER_END, 0, 0)];
    }

    // vma_find_kmvarsdsc_is_ok
    method FindIsOk(cur: Area, start: nat, size: nat) returns (ok: bool)
      requires Valid() && cur in list
      ensures ok == Fits(Views(list), IndexOf(list, cur), start, size, isalcend)
    {
      var newend := start + size;
      var k := IndexOf(list, cur);
      if k + 1 < |list| {
        var next := list[k + 1];
        if start == 0 {
          return cur.end + size <= next.start;
        } else {
          return cur.end <= start && newend <= next.start;
        }
      } else {
        if start == 0 {
          return cur.end + size < isalcend;
        } else {
          return cur.end <= start && newend < isalcend;
        }
      }
    }

    // vma_find_kmvarsdsc
    method Find(start: nat, size: nat) returns (r: Area?)
      requires Valid()
      ensures size < PAGE || start + size > isalcend ==> r == null
      ensures size >= PAGE && start + size <= isalcend ==>
                var c := Choice(Views(list), Hint(), start, size, isalcend);
                if c.None? then r == null else r == list[c.value]
    {
      hide Fits, FirstFit, Ordered, NoDup, Views;
      if size < PAGE || start + size > isalcend {
        return null;
      }
      ghost var v := Views(list);
      if curr != null {
        var ok := FindIsOk(curr, start, size);
        if ok {
          return curr;
        }
      }
      var pos := 0;
      while pos < |list|
        invariant 0 <= pos <= |list| && |v| == |list|
        invariant FirstFit(v, 0, start, size, isalcend) == FirstFit(v, pos, start, size, isalcend)
      {
        IndexAt(list, pos);
        FirstFitStep(v, pos, start, size, isalcend);
        var ok := FindIsOk(list[pos], start, size);
        if ok {
          return list[pos];
        }
        pos := pos + 1;
      }
      FirstFitEnd(v, start, size, isalcend);
      return null;
    }

    // vma_new_vadrs_core; avail says whether new_kmvarsdsc finds memory.
    method NewCore(start: nat, size: nat, limits: nat, typ: nat, avail: bool) returns (r: nat)
      requires Valid()
      modifies this, list
      ensures Valid() && forall a :: a in list ==> a in old(list) || fresh(a)
      ensures r != 0 <==> old(Succeeds(Views(list), Hint(), start, size, limits, typ, isalcend, avail))
      ensures r == 0 ==> list == old(list) && Views(list) == old(Views(list)) && curr == old(curr)
      ensures r != 0 ==>
                var v := old(Views(list)); var k := Choice(v, old(Hint()), start, size, isalcend).value;
                && r == Place(v[k], start)
                && Views(list) == Placed(v, k, start, size, limits, typ)
                && curr != null && curr.end == r + size
      ensures nr == old(nr)
    {
      hide Fits, FirstFit, Ordered, NoDup, Merges, Placed, Place, Views;
      var area := Find(start, size);
      if area == null {
        return 0;
      }
      r := NewBehind(area, Choice(Views(list), Hint(), start, size, isalcend).value, start, size, limits, typ, avail);
    }

    // The request goes behind the area found.
    method NewBehind(area: Area, ghost k: nat, start: nat, size: nat, limits: nat, typ: nat, avail: bool) returns (r: nat)
      requires Valid() && k < |list| && area == list[k] && Fits(Views(list), k, start, size, isalcend) && size > 0
      modifies this, area
      ensures Valid() && forall a :: a in list ==> a in old(list) || fresh(a)
      ensures r != 0 <==> avail || Merges(old(Views(list))[k], start, limits, typ)
      ensures r == 0 ==> list == old(list) && Views(list) == old(Views(list)) && curr == old(curr)
      ensures r != 0 ==>
                && r == Place(old(Views(list))[k], start)
                && Views(list) == Placed(old(Views(list)), k, start, size, limits, typ)
                && curr != null && curr.end == r + size
      ensures nr == old(nr)
    {
      hide Fits, Ordered, NoDup, Placed, Views;
      ghost var v := Views(list);
      Positive(v, isalcend, k, start);
      PlacedOrdered(v, k, start, size, limits, typ, isalcend);
      PlacedCases(v, k, start, size, limits, typ);
      if (start == 0 || start == area.end) && limits == area.limits && typ == area.typ {
        r := area.end;
        Grow(area, k, size);
        return;
      }
      if !avail {
        return 0;
      }
      var s := if start == 0 then area.end else start;
      var n := new Area(s, s + size, limits, typ);
      AddAfter(area, n, k);
      r := n.start;
    }

    // vma_new_vadrs
    method New(start: nat, size: nat, limits: nat, typ: nat, avail: bool) returns (r: nat)
      requires Valid()
      modifies this, list
      ensures Valid() && nr == old(nr) && forall a :: a in list ==> a in old(list) || fresh(a)
      ensures r != 0 <==>
                && size >= 1 && (start != 0 ==> start % PAGE == 0 && start + size <= USER_END)
                && old(Succeeds(Views(list), Hint(), start, AlignUp(size), limits, typ, isalcend, avail))
      ensures r == 0 ==> list == old(list) && Views(list) == old(Views(list)) && curr == old(curr)
      ensures r != 0 ==>
                var v := old(Views(list)); var k := Choice(v, old(Hint()), start, AlignUp(size), isalcend).value;
                r == Place(v[k], start) && Views(list) == Placed(v, k, start, AlignUp(size), limits, typ)
      ensures r != 0 ==> curr != null && curr.end == r + AlignUp(size)
    {
      hide Fits, FirstFit, Ordered, NoDup, Placed, Place, Views, Succeeds;
      if 1 > size {
        return 0;
      }
      if start != 0 {
        if start % PAGE != 0 || PAGE > start || USER_END < start + size {
          return 0;
        }
      }
      r := NewCore(start, AlignUp(size), limits, typ, avail);
    }

    // An area is made longer and becomes the hint.
    method Grow(area: Area, ghost k: nat, size: nat)
      requires Valid() && k < |list| && area == list[k]
      requires var v := Views(list); Ordered(v[k := v[k].(end := v[k].end + size)], isalcend)
      modifies this`curr, area
      ensures Valid() && curr == area
      ensures var v := old(Views(list)); Views(list) == v[k := v[k].(end := v[k].end + size)]
    {
      hide Ordered;
      area.end := area.end + size;
      curr := area;
      assert Views(list) == old(Views(list))[k := old(Views(list))[k].(end := old(Views(list))[k].end + size)];
    }

    // A new area is linked in behind another and becomes the hint, and the end if it is the last one.
    method AddAfter(area: Area, n: Area, ghost k: nat)
      requires Valid() && k < |list| && area == list[k] && n !in list
      requires Ordered(After(Views(list), k, n.Interval()), isalcend)
      modifies this
      ensures Valid() && curr == n && list == After(old(list), k, n) && nr == old(nr)
      ensures Views(list) == After(old(Views(list)), k, n.Interval()) && forall a :: a in list ==> a == n || a in old(list)
    {
      hide Ordered, Views, NoDup;
      IndexAt(list, k);
      var j := IndexOf(list, area);
      hide IndexOf;
      AddFacts(list, j, n);
      AfterHas(list, j, n);
      curr := n;
      list := After(list, j, n);
      if list[|list| - 1] == n {
        last := n;
      }
      drift := drift + 1;
    }

    // vma_del_find_kmvarsdsc
    method DelFind(start: nat, size: nat) returns (r: Area?)
      requires Valid()
      ensures size < PAGE ==> r == null
      ensures size >= PAGE ==>
                var c := FirstInside(Views(list), 0, start, size);
                if c.None? then r == null else r == list[c.value]
    {
      hide FirstInside, Ordered, NoDup, Views;
      if size < PAGE {
        return null;
      }
      ghost var v := Views(list);
      if curr != null {
        if curr.start <= start && start + size <= curr.end {
          OnlyInside(v, isalcend, start, size, IndexOf(list, curr));
          return curr;
        }
      }
      var pos := 0;
      while pos < |list|
        invariant 0 <= pos <= |list| && |v| == |list|
        invariant FirstInside(v, 0, start, size) == FirstInside(v, pos, start, size)
      {
        FirstInsideStep(v, pos, start, size);
        var a := list[pos];
        if start >= a.start && start + size <= a.end {
          return a;
        }
        pos := pos + 1;
      }
      FirstInsideStep(v, |v|, start, size);
      return null;
    }

    // An area leaves the list, the count and, if it was there, the end.
    method Unlink(area: Area, ghost k: nat)
      requires Valid() && k < |list| && area == list[k]
      requires var v := Views(list); Ordered(v[..k] + v[k + 1..], isalcend)
      modifies this
      ensures Valid() && list == old(list)[..k] + old(list)[k + 1..] && nr == old(nr) - 1
      ensures Views(list) == old(Views(list))[..k] + old(Views(list))[k + 1..]
      ensures HintMoved(old(list), old(curr), k, true, false, list, curr)
    {
      hide Ordered, Views, NoDup;
      IndexAt(list, k);
      var j := IndexOf(list, area);
      hide IndexOf;
      if j + 1 == |list| {
        if j != 0 {
          last := list[j - 1];
          curr := list[j - 1];
        } else {
          last := null;
          curr := null;
        }
      } else {
        curr := list[j + 1];
      }
      CutFacts(list, j);
      list := list[..j] + list[j + 1..];
      nr := nr - 1;
    }

    // One bound of an area moves.
    method Trim(area: Area, ghost k: nat, start: nat, end: nat)
      requires Valid() && k < |list| && area == list[k]
      requires var v := Views(list); Ordered(v[k := v[k].(start := start, end := end)], isalcend)
      modifies area
      ensures Valid()
      ensures var v := old(Views(list)); Views(list) == v[k := v[k].(start := start, end := end)]
    {
      hide Ordered;
      area.start := start;
      area.end := end;
      assert Views(list) == old(Views(list))[k := old(Views(list))[k].(start := start, end := end)];
    }

    // vma_del_vadrs_core: the area goes, or loses its head, its tail or its middle.  avail says whether
    // a descriptor is left for the part above a middle.
    method DelCore(start: nat, size: nat, avail: bool) returns (ok: bool)
      requires Valid()
      modifies this, list
      ensures Valid() && drift == old(drift) && forall a :: a in list ==> a in old(list) || fresh(a)
      ensures ok <==> size >= PAGE
                      && var c := FirstInside(old(Views(list)), 0, start, size);
                         c.Some? && (avail || old(Views(list))[c.value].start == start
                                     || old(Views(list))[c.value].end == start + size)
      ensures !ok ==> list == old(list) && Views(list) == old(Views(list)) && curr == old(curr) && last == old(last) && nr == old(nr)
      ensures ok ==> Views(list) == Deleted(old(Views(list)), FirstInside(old(Views(list)), 0, start, size).value, start, size)
      ensures ok ==> var k := FirstInside(old(Views(list)), 0, start, size).value; var x := old(Views(list))[k];
                HintMoved(old(list), old(curr), k, x.start == start && x.end == start + size,
                          x.start < start && x.end > start + size, list, curr)
    {
      hide FirstInside, Ordered, NoDup, Views, Deleted;
      ghost var v := Views(list);
      var area := DelFind(start, size);
      if area == null {
        return false;
      }
      ghost var k := FirstInside(v, 0, start, size).value;
      DeletedCases(v, k, start, size);
      DeletedOrdered(v, k, start, size, isalcend);
      if area.start == start && area.end == start + size {
        Unlink(area, k);
        return true;
      }
      if area.start == start && area.end > start + size {
        Trim(area, k, start + size, area.end);
        return true;
      }
      if area.start < start && area.end == start + size {
        Trim(area, k, area.start, start);
        return true;
      }
      if !avail {
        return false;
      }
      ok := Split(area, k, start, size);
    }

    // The middle of an area goes; what is above it becomes an area of its own.
    method Split(area: Area, ghost k: nat, start: nat, size: nat) returns (ok: bool)
      requires Valid() && k < |list| && area == list[k] && size > 0
      requires area.start < start && start + size < area.end
      requires Ordered(Deleted(Views(list), k, start, size), isalcend)
      modifies this, area
      ensures ok && Valid() && drift == old(drift) && forall a :: a in list ==> a in old(list) || fresh(a)
      ensures Views(list) == Deleted(old(Views(list)), k, start, size)
      ensures HintMoved(old(list), old(curr), k, false, true, list, curr)
    {
      hide Ordered, NoDup, Views, Deleted, After;
      ghost var v := Views(list);
      var n := new Area(start + size, area.end, area.limits, area.typ);
      SplitCase(v, k, area.start, start, size, n.Interval(), isalcend);
      Trim(area, k, area.start, start);
      AddAfter(area, n, k);
      AfterAt(old(list), k, n, k + 1);
      nr := nr + 1;
      drift := drift - 1;
      ok := true;
    }

    // vma_del_vadrs
    method Del(start: nat, size: nat, avail: bool) returns (ok: bool)
      requires Valid()
      modifies this, list
      ensures Valid() && drift == old(drift) && forall a :: a in list ==> a in old(list) || fresh(a)
      ensures ok <==> Asks(start, size)
                      && var c := FirstInside(old(Views(list)), 0, start, AlignUp(size));
                         c.Some? && (avail || old(Views(list))[c.value].start == start
                                     || old(Views(list))[c.value].end == start + AlignUp(size))
      ensures !ok ==> list == old(list) && Views(list) == old(Views(list)) && curr == old(curr)
      ensures ok ==> var k := FirstInside(old(Views(list)), 0, start, AlignUp(size)).value; var x := old(Views(list))[k];
                HintMoved(old(list), old(curr), k, x.start == start && x.end == start + AlignUp(size),
                          x.start < start && x.end > start + AlignUp(size), list, curr)
      ensures Views(list) == DelStep(old(Views(list)), Request(start, size, avail))
    {
      hide FirstInside, Ordered, NoDup, Views, Deleted, HintMoved;
      if 1 > size || start == 0 {
        return false;
      }
      ok := DelCore(start, AlignUp(size), avail);
    }
  }

  lemma SplitOrdered(v: seq<Iv>, hi: nat, k: nat, start: nat)
    requires Ordered(v, hi) && k < |v| && v[k].start < start <= v[k].end
    ensures Ordered(v[k := v[k].(end := start)], hi)
  {
    var w := v[k := v[k].(end := start)];
    forall j | 0 < j < |w| ensures Follows(w, j) {
      assert Follows(v, j);
    }
  }

  lemma SplitCase(v: seq<Iv>, k: nat, first: nat, start: nat, size: nat, x: Iv, hi: nat)
    requires Ordered(v, hi) && k < |v| && v[k].start == first < start && start + size < v[k].end
    requires x == v[k].(start := start + size)
    ensures var w := v[k := v[k].(start := first, end := start)];
      Ordered(w, hi) && After(w, k, x) == Deleted(v, k, start, size)
  {
    SplitOrdered(v, hi, k, start);
  }

  lemma DeletedCases(v: seq<Iv>, k: nat, start: nat, size: nat)
    requires k < |v| && Inside(v[k], start, size)
    ensures v[k].start == start && v[k].end == start + size ==> Deleted(v, k, start, size) == v[..k] + v[k + 1..]
    ensures v[k].start == start && v[k].end > start + size ==> Deleted(v, k, start, size) == v[k := v[k].(start := start + size)]
    ensures v[k].start < start && v[k].end == start + size ==> Deleted(v, k, start, size) == v[k := v[k].(end := start)]
  {
  }

  // The area that holds the whole range.
  function FirstInside(v: seq<Iv>, k: nat, start: nat, size: nat): (r: Option<nat>)
    requires k <= |v|
    ensures r.Some? ==> k <= r.value < |v| && Inside(v[r.value], start, size)
    ensures r.None? <==> forall j :: k <= j < |v| ==> !Inside(v[j], start, size)
    decreases |v| - k
  {
    if k == |v| then None
    else if Inside(v[k], start, size) then Some(k)
    else FirstInside(v, k + 1, start, size)
  }

  lemma FirstInsideStep(v: seq<Iv>, k: nat, start: nat, size: nat)
    requires k <= |v|
    ensures FirstInside(v, k, start, size)
         == if k == |v| then None else if Inside(v[k], start, size) then Some(k) else FirstInside(v, k + 1, start, size)
  {
  }

  lemma OnlyInside(v: seq<Iv>, hi: nat, start: nat, size: nat, k: nat)
    requires Ordered(v, hi) && size > 0 && k < |v| && Inside(v[k], start, size)
    ensures FirstInside(v, 0, start, size) == Some(k)
  {
    var j := FirstInside(v, 0, start, size).value;
    if j != k { OneInside(v, hi, start, size, j, k); }
  }

  lemma FirstFitStep(v: seq<Iv>, k: nat, start: nat, size: nat, hi: nat)
    requires k < |v|
    ensures FirstFit(v, k, start, size, hi) == if Fits(v, k, start, size, hi) then Some(k) else FirstFit(v, k + 1, start, size, hi)
  {
  }

  lemma FirstFitEnd(v: seq<Iv>, start: nat, size: nat, hi: nat)
    ensures FirstFit(v, |v|, start, size, hi) == None
  {
  }

  lemma PlacedCases(v: seq<Iv>, k: nat, start: nat, size: nat, limits: nat, typ: nat)
    requires k < |v|
    ensures Merges(v[k], start, limits, typ) ==>
              Placed(v, k, start, size, limits, typ) == v[k := v[k].(end := v[k].end + size)]
    ensures !Merges(v[k], start, limits, typ) ==>
              Placed(v, k, start, size, limits, typ)
              == v[..k + 1] + [Iv(Place(v[k], start), Place(v[k], start) + size, limits, typ)] + v[k + 1..]
  {
  }

  // A returned address is never 0.
  lemma Positive(v: seq<Iv>, hi: nat, k: nat, start: nat)
    requires Ordered(v, hi) && k < |v|
    ensures Place(v[k], start) > 0
  {
  }

  lemma {:induction false} IndexAt(l: seq<Area>, k: nat)
    requires NoDup(l) && k < |l|
    ensures IndexOf(l, l[k]) == k
  {
    if k < |l| - 1 {
      IndexAt(l[..|l| - 1], k);
    }
  }

  // ---- what the operations mean for the address map ----

  // A successful allocation adds exactly one free range.
  lemma NewAddsRange(v: seq<Iv>, hi: nat, k: nat, start: nat, size: nat, limits: nat, typ: nat)
    requires Ordered(v, hi) && k < |v| && Fits(v, k, start, size, hi) && size > 0
    ensures var r := Place(v[k], start); var w := Placed(v, k, start, size, limits, typ);
      && Ordered(w, hi) && (start != 0 ==> r == start)
      && (forall a :: r <= a < r + size ==> !InUse(v, a))
      && (forall a: nat, l: nat, t: nat :: Has(w, a, l, t) <==> Has(v, a, l, t) || (r <= a < r + size && l == limits && t == typ))
  {
    hide Has, InUse, Placed, Fits, Ordered;
    PlacedOrdered(v, k, start, size, limits, typ, hi);
    var r := Place(v[k], start);
    var w := Placed(v, k, start, size, limits, typ);
    forall a | r <= a < r + size ensures !InUse(v, a) {
      PlacedFree(v, k, start, size, hi, a);
    }
    NotEmpty(v, hi, k);
    forall a: nat, l: nat, t: nat ensures Has(w, a, l, t) <==> Has(v, a, l, t) || (r <= a < r + size && l == limits && t == typ) {
      PlacedHas(v, k, start, size, limits, typ, a, l, t);
    }
  }

  lemma NotEmpty(v: seq<Iv>, hi: nat, k: nat)
    requires Ordered(v, hi) && k < |v|
    ensures v[k].start < v[k].end
  {
  }

  // Deleting what was just allocated gives the old map back.
  lemma DelUndoesNew(v: seq<Iv>, hi: nat, k: nat, start: nat, size: nat, limits: nat, typ: nat, a: nat, l: nat, t: nat)
    requires Ordered(v, hi) && k < |v| && Fits(v, k, start, size, hi) && size > 0
    ensures var r := Place(v[k], start); var w := Placed(v, k, start, size, limits, typ);
      var c := FirstInside(w, 0, r, size);
      c.Some? && (Has(Deleted(w, c.value, r, size), a, l, t) <==> Has(v, a, l, t))
  {
    var r := Place(v[k], start);
    var w := Placed(v, k, start, size, limits, typ);
    PlacedAt(v, k, start, size, limits, typ);
    NotEmpty(v, hi, k);
    assert Inside(w[if Merges(v[k], start, limits, typ) then k else k + 1], r, size);
    hide Has, InUse, Placed, Fits, Ordered, Deleted, FirstInside;
    NewAddsRange(v, hi, k, start, size, limits, typ);
    DeletedHas(w, FirstInside(w, 0, r, size).value, r, size, hi, a, l, t);
    if Has(v, a, l, t) {
      HasInUse(v, a, l, t);
    }
  }

  lemma HasInUse(v: seq<Iv>, a: nat, l: nat, t: nat)
    requires Has(v, a, l, t)
    ensures InUse(v, a)
  {
    var k :| 0 <= k < |v| && Covers(v[k], a) && v[k].limits == l && v[k].typ == t;
    HasAt(v, k, a);
  }
}
