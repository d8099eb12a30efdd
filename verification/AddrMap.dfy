// The areas of an address space as a sorted list of intervals, read as a map from addresses to
// their protection and type (krlvadrsmem.c).
module AddrMap {
  datatype Iv = Iv(start: nat, end: nat, limits: nat, typ: nat)

  // Non-empty, disjoint, in address order and below hi.
  ghost predicate Ordered(v: seq<Iv>, hi: nat) {
    && (forall k :: 0 <= k < |v| ==> v[k].start < v[k].end <= hi)
    && (forall k :: 0 < k < |v| ==> Follows(v, k))
  }

  predicate Follows(v: seq<Iv>, k: nat)
    requires 0 < k < |v|
  {
    v[k - 1].end <= v[k].start
  }

  lemma {:induction false} Before(v: seq<Iv>, hi: nat, j: nat, k: nat)
    requires Ordered(v, hi) && j < k < |v|
    ensures v[j].end <= v[k].start
  {
    assert Follows(v, k);
    if j + 1 < k {
      Before(v, hi, j, k - 1);
    }
  }

  lemma Disjoint(v: seq<Iv>, hi: nat, j: nat, k: nat)
    requires Ordered(v, hi) && j < |v| && k < |v| && j != k
    ensures v[j].end <= v[k].start || v[k].end <= v[j].start
  {
    if j < k { Before(v, hi, j, k); } else { Before(v, hi, k, j); }
  }

  predicate Covers(i: Iv, a: nat) { i.start <= a < i.end }

  // Address a belongs to an area with these limits and this type.
  ghost predicate Has(v: seq<Iv>, a: nat, limits: nat, typ: nat) {
    exists k :: 0 <= k < |v| && Covers(v[k], a) && v[k].limits == limits && v[k].typ == typ
  }

  ghost predicate InUse(v: seq<Iv>, a: nat) {
    exists k :: 0 <= k < |v| && Covers(v[k], a)
  }

  lemma HasAt(v: seq<Iv>, k: nat, a: nat)
    requires k < |v| && Covers(v[k], a)
    ensures Has(v, a, v[k].limits, v[k].typ) && InUse(v, a)
  {
  }

  // It is a map: one address has one entry.
  lemma OneEntry(v: seq<Iv>, hi: nat, a: nat, l1: nat, t1: nat, l2: nat, t2: nat)
    requires Ordered(v, hi) && Has(v, a, l1, t1) && Has(v, a, l2, t2)
    ensures l1 == l2 && t1 == t2
  {
    var j :| 0 <= j < |v| && Covers(v[j], a) && v[j].limits == l1 && v[j].typ == t1;
    var k :| 0 <= k < |v| && Covers(v[k], a) && v[k].limits == l2 && v[k].typ == t2;
    if j != k { Disjoint(v, hi, j, k); }
  }

  // ---- allocation ----

  // vma_find_kmvarsdsc_is_ok: area k is followed by a gap that takes the request.  Start 0 means
  // anywhere; after the last area the request must end strictly below hi.
  predicate Fits(v: seq<Iv>, k: nat, start: nat, size: nat, hi: nat)
    requires k < |v|
  {
    if k + 1 < |v| then
      if start == 0 then v[k].end + size <= v[k + 1].start
      else v[k].end <= start && start + size <= v[k + 1].start
    else
      if start == 0 then v[k].end + size < hi
      else v[k].end <= start && start + size < hi
  }

  ghost predicate SomeFits(v: seq<Iv>, start: nat, size: nat, hi: nat) {
    exists k :: 0 <= k < |v| && Fits(v, k, start, size, hi)
  }

  function Place(i: Iv, start: nat): nat { if start == 0 then i.end else start }

  predicate Merges(i: Iv, start: nat, limits: nat, typ: nat) {
    (start == 0 || start == i.end) && limits == i.limits && typ == i.typ
  }

  // The list after a request was placed behind area k.
  function Placed(v: seq<Iv>, k: nat, start: nat, size: nat, limits: nat, typ: nat): seq<Iv>
    requires k < |v|
  {
    if Merges(v[k], start, limits, typ) then v[k := v[k].(end := v[k].end + size)]
    else v[..k + 1] + [Iv(Place(v[k], start), Place(v[k], start) + size, limits, typ)] + v[k + 1..]
  }

  lemma PlacedOrdered(v: seq<Iv>, k: nat, start: nat, size: nat, limits: nat, typ: nat, hi: nat)
    requires Ordered(v, hi) && k < |v| && Fits(v, k, start, size, hi) && size > 0
    ensures Ordered(Placed(v, k, start, size, limits, typ), hi)
  {
    PlacedAt(v, k, start, size, limits, typ);
    hide Placed;
    var w := Placed(v, k, start, size, limits, typ);
    assert k + 1 < |v| ==> v[k + 1].start < v[k + 1].end;
    forall j | 0 < j < |w| ensures Follows(w, j) {
      var up := if Merges(v[k], start, limits, typ) then 0 else 1;
      if j <= k {
        assert Follows(v, j);
      } else if j > k + 1 + up {
        assert Follows(v, j - up);
      }
    }
  }

  lemma PlacedAt(v: seq<Iv>, k: nat, start: nat, size: nat, limits: nat, typ: nat)
    requires k < |v|
    ensures var w := Placed(v, k, start, size, limits, typ);
      if Merges(v[k], start, limits, typ)
      then |w| == |v| && forall j :: 0 <= j < |w| ==> w[j] == if j == k then v[k].(end := v[k].end + size) else v[j]
      else && |w| == |v| + 1
           && (forall j :: 0 <= j <= k ==> w[j] == v[j])
           && w[k + 1] == Iv(Place(v[k], start), Place(v[k], start) + size, limits, typ)
           && (forall j :: k + 1 < j < |w| ==> w[j] == v[j - 1])
  {
  }

  // The range was free.
  lemma PlacedFree(v: seq<Iv>, k: nat, start: nat, size: nat, hi: nat, a: nat)
    requires Ordered(v, hi) && k < |v| && Fits(v, k, start, size, hi)
    requires Place(v[k], start) <= a < Place(v[k], start) + size
    ensures !InUse(v, a)
  {
    forall j | 0 <= j < |v| ensures !Covers(v[j], a) {
      if j < k { Before(v, hi, j, k); }
      if k + 1 < j { Before(v, hi, k + 1, j); }
    }
  }

  // Exactly the range is added to the map, with the limits and type asked for.
  lemma PlacedHas(v: seq<Iv>, k: nat, start: nat, size: nat, limits: nat, typ: nat, a: nat, l: nat, t: nat)
    requires k < |v| && v[k].start <= v[k].end
    ensures Has(Placed(v, k, start, size, limits, typ), a, l, t)
       <==> Has(v, a, l, t) || (Place(v[k], start) <= a < Place(v[k], start) + size && l == limits && t == typ)
  {
    var w := Placed(v, k, start, size, limits, typ);
    var up := if Merges(v[k], start, limits, typ) then 0 else 1;
    if Has(v, a, l, t) {
      var j :| 0 <= j < |v| && Covers(v[j], a) && v[j].limits == l && v[j].typ == t;
      HasAt(w, if j <= k then j else j + up, a);
    }
    if Place(v[k], start) <= a < Place(v[k], start) + size && l == limits && t == typ {
      HasAt(w, k + up, a);
    }
    if Has(w, a, l, t) {
      var j :| 0 <= j < |w| && Covers(w[j], a) && w[j].limits == l && w[j].typ == t;
      if j < k || (j == k && a < v[k].end) {
        HasAt(v, j, a);
      } else if j > k + up {
        HasAt(v, j - up, a);
      }
    }
  }

  // For a fixed address it does not depend on the list's shape whether a gap fits.
  lemma FixedFits(v: seq<Iv>, start: nat, size: nat, hi: nat)
    requires Ordered(v, hi) && start > 0 && size > 0
    ensures SomeFits(v, start, size, hi) <==>
              && |v| > 0 && v[0].end <= start
              && (forall a :: start <= a < start + size ==> !InUse(v, a))
              && (v[|v| - 1].end <= start ==> start + size < hi)
  {
    if SomeFits(v, start, size, hi) {
      var k :| 0 <= k < |v| && Fits(v, k, start, size, hi);
      forall a | start <= a < start + size ensures !InUse(v, a) {
        PlacedFree(v, k, start, size, hi, a);
      }
      if k > 0 { Before(v, hi, 0, k); }
      if k + 1 < |v| - 1 { Before(v, hi, k + 1, |v| - 1); }
    }
    if |v| > 0 && v[0].end <= start && (v[|v| - 1].end <= start ==> start + size < hi)
       && forall a :: start <= a < start + size ==> !InUse(v, a) {
      FixedFitsFrom(v, start, size, hi, |v| - 1);
    }
  }

  // Anywhere means right behind an area: the gap there takes the request exactly if all of it is free, and
  // behind the last area exactly if it also ends below hi.
  lemma AnyFits(v: seq<Iv>, k: nat, size: nat, hi: nat)
    requires Ordered(v, hi) && k < |v|
    ensures Fits(v, k, 0, size, hi) <==>
              && (forall a :: v[k].end <= a < v[k].end + size ==> !InUse(v, a))
              && (k + 1 == |v| ==> v[k].end + size < hi)
  {
    if Fits(v, k, 0, size, hi) {
      forall a | v[k].end <= a < v[k].end + size ensures !InUse(v, a) {
        PlacedFree(v, k, 0, size, hi, a);
      }
    } else if k + 1 < |v| {
      assert Follows(v, k + 1);
      HasAt(v, k + 1, v[k + 1].start);
    }
  }

  lemma {:induction false} FixedFitsFrom(v: seq<Iv>, start: nat, size: nat, hi: nat, k: nat)
    requires Ordered(v, hi) && start > 0 && size > 0 && k < |v| && v[0].end <= start
    requires forall a :: start <= a < start + size ==> !InUse(v, a)
    requires k + 1 < |v| ==> start + size <= v[k + 1].start
    requires k + 1 == |v| && v[k].end <= start ==> start + size < hi
    ensures SomeFits(v, start, size, hi)
  {
    if v[k].end <= start {
      assert Fits(v, k, start, size, hi);
    } else {
      var a := if start < v[k].start then v[k].start else start;
      if a < start + size {
        HasAt(v, k, a);
      }
      FixedFitsFrom(v, start, size, hi, k - 1);
    }
  }

  // ---- deletion ----

  predicate Inside(i: Iv, start: nat, size: nat) { i.start <= start && start + size <= i.end }

  // The whole area, its head, its tail or its middle goes.
  function Deleted(v: seq<Iv>, k: nat, start: nat, size: nat): seq<Iv>
    requires k < |v|
  {
    var i := v[k];
    v[..k]
    + (if i.start < start then [i.(end := start)] else [])
    + (if start + size < i.end then [i.(start := start + size)] else [])
    + v[k + 1..]
  }

  // Area j of the list after a deletion.
  lemma DeletedAt(v: seq<Iv>, k: nat, start: nat, size: nat)
    requires k < |v|
    ensures var w := Deleted(v, k, start, size); var i := v[k];
      var l := if i.start < start then 1 else 0;
      var r := if start + size < i.end then 1 else 0;
      && |w| == |v| - 1 + l + r
      && (forall j :: 0 <= j < k ==> w[j] == v[j])
      && (l == 1 ==> w[k] == i.(end := start))
      && (r == 1 ==> w[k + l] == i.(start := start + size))
      && (forall j :: k + l + r <= j < |w| ==> w[j] == v[j - l - r + 1])
  {
  }

  lemma DeletedOrdered(v: seq<Iv>, k: nat, start: nat, size: nat, hi: nat)
    requires Ordered(v, hi) && k < |v| && Inside(v[k], start, size) && size > 0
    ensures Ordered(Deleted(v, k, start, size), hi)
  {
    DeletedAt(v, k, start, size);
    hide Deleted;
    var w := Deleted(v, k, start, size);
    var l := if v[k].start < start then 1 else 0;
    var r := if start + size < v[k].end then 1 else 0;
    forall j | 0 < j < |w| ensures Follows(w, j) {
      if j <= k {
        assert Follows(v, j);
      } else if j > k + l + r {
        assert Follows(v, j - l - r + 1);
      }
      if l + r == 0 && 0 < k && k + 1 < |v| { Before(v, hi, k - 1, k + 1); }
      if k + 1 < |v| { assert Follows(v, k + 1); }
    }
  }

  lemma DeletedKeeps(v: seq<Iv>, k: nat, start: nat, size: nat, a: nat, l: nat, t: nat)
    requires k < |v| && Inside(v[k], start, size)
    requires Has(v, a, l, t) && !(start <= a < start + size)
    ensures Has(Deleted(v, k, start, size), a, l, t)
  {
    DeletedAt(v, k, start, size);
    hide Deleted;
    var i := v[k];
    var dl := if i.start < start then 1 else 0;
    var dr := if start + size < i.end then 1 else 0;
    var j :| 0 <= j < |v| && Covers(v[j], a) && v[j].limits == l && v[j].typ == t;
    hide Has, InUse;
    HasAt(Deleted(v, k, start, size), if j < k then j else if j > k then j - 1 + dl + dr else if a < start then k else k + dl, a);
  }

  lemma DeletedWithin(v: seq<Iv>, k: nat, start: nat, size: nat, hi: nat, a: nat, l: nat, t: nat)
    requires Ordered(v, hi) && k < |v| && Inside(v[k], start, size) && size > 0
    requires Has(Deleted(v, k, start, size), a, l, t)
    ensures Has(v, a, l, t) && !(start <= a < start + size)
  {
    DeletedAt(v, k, start, size);
    hide Deleted;
    var w := Deleted(v, k, start, size);
    var i := v[k];
    var dl := if i.start < start then 1 else 0;
    var dr := if start + size < i.end then 1 else 0;
    var j :| 0 <= j < |w| && Covers(w[j], a) && w[j].limits == l && w[j].typ == t;
    hide Has, InUse;
    if j < k {
      assert w[j] == v[j];
      HasAt(v, j, a);
      Before(v, hi, j, k);
    } else if j < k + dl + dr {
      HasAt(v, k, a);
    } else {
      assert w[j] == v[j - dl - dr + 1];
      HasAt(v, j - dl - dr + 1, a);
      Before(v, hi, k, j - dl - dr + 1);
    }
  }

  // Exactly the range is taken out of the map.
  lemma DeletedHas(v: seq<Iv>, k: nat, start: nat, size: nat, hi: nat, a: nat, l: nat, t: nat)
    requires Ordered(v, hi) && k < |v| && Inside(v[k], start, size) && size > 0
    ensures Has(Deleted(v, k, start, size), a, l, t) <==> Has(v, a, l, t) && !(start <= a < start + size)
  {
    hide Has, Deleted, Ordered;
    if Has(v, a, l, t) && !(start <= a < start + size) {
      DeletedKeeps(v, k, start, size, a, l, t);
    }
    if Has(Deleted(v, k, start, size), a, l, t) {
      DeletedWithin(v, k, start, size, hi, a, l, t);
    }
  }

  // At most one area holds the range.
  lemma OneInside(v: seq<Iv>, hi: nat, start: nat, size: nat, j: nat, k: nat)
    requires Ordered(v, hi) && size > 0 && j < |v| && k < |v| && j != k && Inside(v[j], start, size)
    ensures !Inside(v[k], start, size)
  {
    Disjoint(v, hi, j, k);
  }
}
