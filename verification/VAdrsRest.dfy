// What vma_del_vadrs can give back, and what it leaves behind for good: requests are rounded up to whole
// pages, but neither the start of a deletion nor the bounds of an area need lie on a page
// (krlvadrsmem.c).
module VAdrsRest {
  import opened Params
  import opened AddrMap
  import opened VAdrs

  predicate Short(i: Iv) { i.end - i.start < PAGE }

  // The area with these bounds is part of what i was.
  predicate PartOf(p: Iv, i: Iv) { i.start <= p.start < p.end <= i.end }

  lemma AlignUpIs(x: nat)
    ensures AlignUp(x) % PAGE == 0 && x <= AlignUp(x) < x + PAGE
    ensures x % PAGE == 0 ==> AlignUp(x) == x
    ensures x >= 1 ==> AlignUp(x) >= PAGE
  {
  }

  // A deletion from area k leaves a part shorter than a page exactly if it begins less than a page
  // above the area's start, or ends less than a page below the area's end.
  lemma LeavesShortPart(v: seq<Iv>, hi: nat, k: nat, start: nat, size: nat)
    requires Ordered(v, hi) && k < |v| && Asks(start, size) && Inside(v[k], start, AlignUp(size))
    ensures var w := Deleted(v, k, start, AlignUp(size));
      (exists j :: 0 <= j < |w| && PartOf(w[j], v[k]) && Short(w[j]))
      <==> 0 < start - v[k].start < PAGE || 0 < v[k].end - (start + AlignUp(size)) < PAGE
  {
    var len := AlignUp(size);
    AlignUpIs(size);
    var w := Deleted(v, k, start, len);
    DeletedAt(v, k, start, len);
    hide AlignUp;
    var l := if v[k].start < start then 1 else 0;
    var r := if start + len < v[k].end then 1 else 0;
    forall j | 0 <= j < |w| && PartOf(w[j], v[k]) ensures k <= j < k + l + r {
      if j < k {
        Before(v, hi, j, k);
      } else if j >= k + l + r {
        Before(v, hi, k, j - l - r + 1);
      }
    }
    if 0 < start - v[k].start < PAGE {
      assert PartOf(w[k], v[k]) && Short(w[k]);
    }
    if 0 < v[k].end - (start + len) < PAGE {
      assert PartOf(w[k + l], v[k]) && Short(w[k + l]);
    }
  }

  // Such a part is out of reach: some request lies inside an area exactly if the area has a page.
  lemma ReachableIff(i: Iv)
    requires 0 < i.start < i.end
    ensures (exists start, size :: Asks(start, size) && Inside(i, start, AlignUp(size))) <==> !Short(i)
  {
    AlignUpIs(1);
    if !Short(i) {
      assert Asks(i.start, 1) && Inside(i, i.start, AlignUp(1));
    }
    forall start, size | Asks(start, size) && Inside(i, start, AlignUp(size)) ensures !Short(i) {
      AlignUpIs(size);
    }
  }

  // ---- any number of deletions ----

  function DelRun(v: seq<Iv>, qs: seq<Request>): seq<Iv>
    decreases |qs|
  {
    if qs == [] then v else DelRun(DelStep(v, qs[0]), qs[1..])
  }

  // Every area lies inside lo .. hi1 or apart from it.
  ghost predicate Apart(v: seq<Iv>, lo: nat, hi1: nat) {
    forall j :: 0 <= j < |v| ==> Within(v[j], lo, hi1) || v[j].end <= lo || hi1 <= v[j].start
  }

  predicate Within(i: Iv, lo: nat, hi1: nat) { lo <= i.start && i.end <= hi1 }

  // How many addresses of lo .. hi1 are in use.
  function Used(v: seq<Iv>, lo: nat, hi1: nat): int {
    if v == [] then 0
    else Used(v[..|v| - 1], lo, hi1) + UsedBy(v[|v| - 1], lo, hi1)
  }

  function UsedBy(i: Iv, lo: nat, hi1: nat): int { if Within(i, lo, hi1) then i.end - i.start else 0 }

  lemma {:induction false} UsedConcat(v: seq<Iv>, w: seq<Iv>, lo: nat, hi1: nat)
    ensures Used(v + w, lo, hi1) == Used(v, lo, hi1) + Used(w, lo, hi1)
  {
    if w == [] {
      assert v + w == v;
    } else {
      assert (v + w)[..|v + w| - 1] == v + w[..|w| - 1];
      UsedConcat(v, w[..|w| - 1], lo, hi1);
    }
  }

  lemma UsedOne(i: Iv, lo: nat, hi1: nat)
    ensures Used([i], lo, hi1) == UsedBy(i, lo, hi1)
  {
    assert [i][..0] == [];
  }

  lemma UsedSplit(v: seq<Iv>, k: nat, mid: seq<Iv>, lo: nat, hi1: nat)
    requires k < |v|
    ensures Used(v[..k] + mid + v[k + 1..], lo, hi1) == Used(v, lo, hi1) - UsedBy(v[k], lo, hi1) + Used(mid, lo, hi1)
  {
    hide Used, UsedBy;
    assert v == v[..k] + [v[k]] + v[k + 1..];
    UsedConcat(v[..k] + [v[k]], v[k + 1..], lo, hi1);
    UsedConcat(v[..k], [v[k]], lo, hi1);
    UsedOne(v[k], lo, hi1);
    UsedConcat(v[..k] + mid, v[k + 1..], lo, hi1);
    UsedConcat(v[..k], mid, lo, hi1);
  }

  // What is left of an area after a deletion.
  function Parts(i: Iv, start: nat, len: nat): seq<Iv> {
    OneIf(i.start < start, i.(end := start)) + OneIf(start + len < i.end, i.(start := start + len))
  }

  lemma UsedParts(i: Iv, start: nat, len: nat, lo: nat, hi1: nat)
    requires i.start < i.end && Inside(i, start, len) && len > 0 && lo < hi1
    requires Within(i, lo, hi1) || i.end <= lo || hi1 <= i.start
    ensures Used(Parts(i, start, len), lo, hi1) == UsedBy(i, lo, hi1) - if Within(i, lo, hi1) then len else 0
  {
    hide Used;
    var below, above := i.(end := start), i.(start := start + len);
    var a := OneIf(i.start < start, below);
    var b := OneIf(start + len < i.end, above);
    assert Parts(i, start, len) == a + b;
    UsedConcat(a, b, lo, hi1);
    UsedIf(i.start < start, below, lo, hi1);
    UsedIf(start + len < i.end, above, lo, hi1);
  }

  function OneIf(c: bool, i: Iv): seq<Iv> { if c then [i] else [] }

  lemma UsedIf(c: bool, i: Iv, lo: nat, hi1: nat)
    ensures Used(OneIf(c, i), lo, hi1) == if c then UsedBy(i, lo, hi1) else 0
  {
    UsedOne(i, lo, hi1);
  }

  lemma UsedDeleted(v: seq<Iv>, hi: nat, k: nat, start: nat, len: nat, lo: nat, hi1: nat)
    requires Ordered(v, hi) && Apart(v, lo, hi1) && lo < hi1 && k < |v| && Inside(v[k], start, len) && len > 0
    ensures Used(Deleted(v, k, start, len), lo, hi1) == Used(v, lo, hi1) - if Within(v[k], lo, hi1) then len else 0
  {
    hide Used, UsedBy;
    assert Deleted(v, k, start, len) == v[..k] + Parts(v[k], start, len) + v[k + 1..];
    UsedSplit(v, k, Parts(v[k], start, len), lo, hi1);
    UsedParts(v[k], start, len, lo, hi1);
  }

  // A whole number of pages lies between x and y.
  predicate PagesApart(x: int, y: int) { (x - y) % PAGE == 0 }

  lemma PagesTrans(x: int, y: int, z: int)
    requires PagesApart(x, y) && PagesApart(y, z)
    ensures PagesApart(x, z)
  {
  }

  lemma PagesLess(x: int, len: nat)
    requires len % PAGE == 0
    ensures PagesApart(x - len, x) && PagesApart(x, x)
  {
  }

  // One deletion takes whole pages out of lo .. hi1, or none.
  lemma StepKeepsPages(v: seq<Iv>, hi: nat, q: Request, lo: nat, hi1: nat)
    requires Ordered(v, hi) && Apart(v, lo, hi1) && lo < hi1
    ensures var w := DelStep(v, q);
      Ordered(w, hi) && Apart(w, lo, hi1) && PagesApart(Used(w, lo, hi1), Used(v, lo, hi1))
  {
    var len := AlignUp(q.size);
    var c := FirstInside(v, 0, q.start, len);
    AlignUpIs(q.size);
    hide AlignUp, FirstInside, Used, PagesApart, Ordered, Apart, Deleted;
    PagesLess(Used(v, lo, hi1), len);
    if DelStep(v, q) != v {
      DeletedOrdered(v, c.value, q.start, len, hi);
      UsedDeleted(v, hi, c.value, q.start, len, lo, hi1);
      DeletedApart(v, hi, c.value, q.start, len, lo, hi1);
    }
  }

  lemma DeletedApart(v: seq<Iv>, hi: nat, k: nat, start: nat, len: nat, lo: nat, hi1: nat)
    requires Ordered(v, hi) && Apart(v, lo, hi1) && k < |v| && Inside(v[k], start, len)
    ensures Apart(Deleted(v, k, start, len), lo, hi1)
  {
    var w := Deleted(v, k, start, len);
    DeletedAt(v, k, start, len);
    var l := if v[k].start < start then 1 else 0;
    var r := if start + len < v[k].end then 1 else 0;
    hide Deleted;
    forall j | 0 <= j < |w| ensures Within(w[j], lo, hi1) || w[j].end <= lo || hi1 <= w[j].start {
      if j >= k + l + r {
        assert w[j] == v[j - l - r + 1];
      }
    }
  }

  lemma {:induction false} RunKeepsPages(v: seq<Iv>, hi: nat, qs: seq<Request>, lo: nat, hi1: nat)
    requires Ordered(v, hi) && Apart(v, lo, hi1) && lo < hi1
    ensures var w := DelRun(v, qs);
      Ordered(w, hi) && Apart(w, lo, hi1) && PagesApart(Used(w, lo, hi1), Used(v, lo, hi1))
    decreases |qs|
  {
    hide DelStep, Used, Ordered, Apart, PagesApart;
    if qs != [] {
      var w := DelStep(v, qs[0]);
      StepKeepsPages(v, hi, qs[0], lo, hi1);
      RunKeepsPages(w, hi, qs[1..], lo, hi1);
      PagesTrans(Used(DelRun(v, qs), lo, hi1), Used(w, lo, hi1), Used(v, lo, hi1));
    } else {
      PagesLess(Used(v, lo, hi1), 0);
    }
  }

  // The addresses of area k, when nothing else lies there.
  lemma {:induction false} UsedAlone(v: seq<Iv>, hi: nat, k: nat)
    requires Ordered(v, hi) && k < |v|
    ensures Apart(v, v[k].start, v[k].end) && Used(v, v[k].start, v[k].end) == v[k].end - v[k].start
  {
    forall j | 0 <= j < |v| && j != k ensures !Within(v[j], v[k].start, v[k].end) && (v[j].end <= v[k].start || v[k].end <= v[j].start) {
      Disjoint(v, hi, j, k);
    }
    UsedSplit(v, k, [], v[k].start, v[k].end);
    NoneUsed(v[..k] + [] + v[k + 1..], v[k].start, v[k].end);
  }

  lemma {:induction false} NoneUsed(v: seq<Iv>, lo: nat, hi1: nat)
    requires forall j :: 0 <= j < |v| ==> !Within(v[j], lo, hi1)
    ensures Used(v, lo, hi1) == 0
  {
    if v != [] {
      NoneUsed(v[..|v| - 1], lo, hi1);
    }
  }

  ghost predicate GivenUp(v: seq<Iv>, i: Iv) {
    forall a :: i.start <= a < i.end ==> !InUse(v, a)
  }

  // An area can be given up by deletions, in one call or in many, exactly if its length is a whole
  // number of pages.
  lemma GivenUpIff(v: seq<Iv>, hi: nat, k: nat)
    requires Ordered(v, hi) && k < |v| && v[k].start > 0
    ensures (exists qs :: GivenUp(DelRun(v, qs), v[k])) <==> (v[k].end - v[k].start) % PAGE == 0
  {
    NotEmpty(v, hi, k);
    hide GivenUp, DelRun, Ordered;
    if (v[k].end - v[k].start) % PAGE == 0 {
      OneCall(v, hi, k);
      var qs := [Request(v[k].start, v[k].end - v[k].start, true)];
      assert GivenUp(DelRun(v, qs), v[k]);
    }
    forall qs ensures GivenUp(DelRun(v, qs), v[k]) ==> (v[k].end - v[k].start) % PAGE == 0 {
      if GivenUp(DelRun(v, qs), v[k]) {
        WholePages(v, hi, k, qs);
      }
    }
  }

  lemma OneCall(v: seq<Iv>, hi: nat, k: nat)
    requires Ordered(v, hi) && k < |v| && v[k].start > 0 && (v[k].end - v[k].start) % PAGE == 0
    ensures GivenUp(DelRun(v, [Request(v[k].start, v[k].end - v[k].start, true)]), v[k])
  {
    var q := Request(v[k].start, v[k].end - v[k].start, true);
    AlignUpIs(q.size);
    OnlyInside(v, hi, q.start, q.size, k);
    var w := DelStep(v, q);
    assert w == Deleted(v, k, q.start, q.size);
    assert DelRun(v, [q]) == DelRun(w, []);
    hide DelStep, Deleted, Ordered, Has;
    forall a, j | v[k].start <= a < v[k].end && 0 <= j < |w| ensures !Covers(w[j], a) {
      DeletedHas(v, k, q.start, q.size, hi, a, w[j].limits, w[j].typ);
      HasOf(w, j, a);
    }
  }

  lemma HasOf(w: seq<Iv>, j: nat, a: nat)
    requires j < |w|
    ensures Covers(w[j], a) ==> Has(w, a, w[j].limits, w[j].typ)
  {
  }

  lemma WholePages(v: seq<Iv>, hi: nat, k: nat, qs: seq<Request>)
    requires Ordered(v, hi) && k < |v| && GivenUp(DelRun(v, qs), v[k])
    ensures (v[k].end - v[k].start) % PAGE == 0
  {
    hide Used, Apart, GivenUp, DelRun, Ordered;
    assert v[k].start < v[k].end by { NotEmpty(v, hi, k); }
    UsedAlone(v, hi, k);
    RunKeepsPages(v, hi, qs, v[k].start, v[k].end);
    GivenUpUnused(DelRun(v, qs), hi, v[k]);
  }

  lemma GivenUpUnused(w: seq<Iv>, hi: nat, i: Iv)
    requires Ordered(w, hi) && GivenUp(w, i)
    ensures Used(w, i.start, i.end) == 0
  {
    forall j | 0 <= j < |w| ensures !Within(w[j], i.start, i.end) {
      assert Covers(w[j], w[j].start) && InUse(w, w[j].start);
    }
    NoneUsed(w, i.start, i.end);
  }

  // Both ways in which a fresh address space meets this: an unaligned start leaves a part below it, and
  // an aligned deletion at the top of the stack leaves a part above it, since the user's last address is
  // one short of a page.  The stack as a whole can never be given up.
  lemma FreshSpace()
    ensures var v := [Iv(0x1000, 0x5000, 0, 0), Iv(0x7fff_c000_0000, USER_END, 0, 0)];
      && Ordered(v, USER_END)
      && DelStep(v, Request(0x1800, 0x1000, true)) == [Iv(0x1000, 0x1800, 0, 0), Iv(0x2800, 0x5000, 0, 0), v[1]]
      && DelStep(v, Request(0x7fff_ffff_e000, 0x1000, true))
         == [v[0], Iv(0x7fff_c000_0000, 0x7fff_ffff_e000, 0, 0), Iv(0x7fff_ffff_f000, USER_END, 0, 0)]
      && Short(Iv(0x1000, 0x1800, 0, 0)) && Short(Iv(0x7fff_ffff_f000, USER_END, 0, 0))
      && !exists qs :: GivenUp(DelRun(v, qs), v[1])
  {
    var v := [Iv(0x1000, 0x5000, 0, 0), Iv(0x7fff_c000_0000, USER_END, 0, 0)];
    assert Follows(v, 1);
    OnlyInside(v, USER_END, 0x1800, 0x1000, 0);
    OnlyInside(v, USER_END, 0x7fff_ffff_e000, 0x1000, 1);
    GivenUpIff(v, USER_END, 1);
  }
}
