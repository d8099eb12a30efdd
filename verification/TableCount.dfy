// How many page tables a directory has, and how many more a range of pages needs (vm.c).
module TableCount {
  import opened PageTables

  predicate HasTable(t: Tables, d: nat, i: nat)
    requires Shape(t)
  {
    i < NPDENTRIES && d in t && t[d][i].Entry?
  }

  // The entries of directory d that lead to a table.
  ghost function Entries(t: Tables, d: nat): set<nat>
    requires Shape(t)
  {
    set i: nat | i < NPDENTRIES && HasTable(t, d, i)
  }

  // The directory entries of pages p .. p + n - 1.
  function Span(p: nat, n: nat): set<nat> {
    if n == 0 then {} else Span(p, n - 1) + {(p + (n - 1)) / NPTENTRIES}
  }

  lemma {:induction false} SpanMeans(p: nat, n: nat, i: nat)
    ensures i in Span(p, n) <==> n > 0 && p / NPTENTRIES <= i <= (p + n - 1) / NPTENTRIES
  {
    if n > 1 { SpanMeans(p, n - 1, i); }
  }

  lemma SpanPrefix(p: nat, m: nat, n: nat)
    requires m <= n
    ensures Span(p, m) <= Span(p, n)
  {
    forall i | i in Span(p, m) ensures i in Span(p, n) {
      SpanMeans(p, m, i);
      SpanMeans(p, n, i);
    }
  }

  lemma SpanNext(p: nat, n: nat)
    ensures Span(p, n + 1) == Span(p, n) + {(p + n) / NPTENTRIES}
  {
  }

  lemma SpanOne(p: nat)
    ensures Span(p, 0) == {} && Span(p, 1) == {p / NPTENTRIES}
  {
    SpanNext(p, 0);
  }

  // Directory d has got the tables for pages p .. p + n - 1, and every frame that left the free list became
  // a table.
  ghost predicate Bought(free0: seq<nat>, free1: seq<nat>, t0: Tables, t1: Tables, d: nat, p: nat, n: nat)
    requires Shape(t0) && Shape(t1)
  {
    Entries(t1, d) == Entries(t0, d) + Span(p, n) && |free1| + |Entries(t1, d)| == |free0| + |Entries(t0, d)|
  }

  ghost predicate Lacks(t: Tables, d: nat, i: nat)
    requires Shape(t)
  {
    i !in Entries(t, d)
  }

  lemma BoughtNone(free: seq<nat>, t: Tables, d: nat, p: nat)
    requires Shape(t)
    ensures Bought(free, free, t, t, d, p, 0)
  {
    SpanOne(p);
  }

  // The table is there.
  lemma BoughtHere(free: seq<nat>, t: Tables, d: nat, p: nat)
    requires Shape(t) && d in t && p < PAGES && t[d][p / NPTENTRIES].Entry?
    ensures Bought(free, free, t, t, d, p, 1)
  {
    SpanOne(p);
    EntryAt(t, d, p);
  }

  lemma LacksHere(t: Tables, d: nat, p: nat)
    requires Shape(t) && d in t && p < PAGES && t[d][p / NPTENTRIES].Absent?
    ensures Lacks(t, d, p / NPTENTRIES)
  {
    EntryAt(t, d, p);
  }

  lemma BoughtTable(free: seq<nat>, t: Tables, d: nat, p: nat, f: nat, perm: nat)
    requires Shape(t) && d in t && p < PAGES && t[d][p / NPTENTRIES].Absent? && f !in t && free != []
    ensures Shape(WithTable(t, d, p / NPTENTRIES, f, perm))
    ensures Bought(free, free[1..], t, WithTable(t, d, p / NPTENTRIES, f, perm), d, p, 1)
  {
    SpanOne(p);
    EntryAt(t, d, p);
    EntriesAdded(t, d, p / NPTENTRIES, f, perm);
  }

  lemma BoughtMore(free0: seq<nat>, free1: seq<nat>, free2: seq<nat>, t0: Tables, t1: Tables, t2: Tables, d: nat, p: nat, m: nat, n: nat)
    requires Shape(t0) && Shape(t1) && Shape(t2) && n <= 1
    requires Bought(free0, free1, t0, t1, d, p, m) && Bought(free1, free2, t1, t2, d, p + m, n)
    ensures Bought(free0, free2, t0, t2, d, p, m + n)
  {
    SpanMore(p, m, n);
    hide Entries, Span;
    UnionTrans(Entries(t0, d), Entries(t1, d), Entries(t2, d), Span(p, m), Span(p + m, n));
  }

  lemma SpanMore(p: nat, m: nat, n: nat)
    requires n <= 1
    ensures Span(p, m + n) == Span(p, m) + Span(p + m, n)
  {
    SpanOne(p + m);
    SpanNext(p, m);
  }

  lemma UnionTrans(a: set<nat>, b: set<nat>, c: set<nat>, x: set<nat>, y: set<nat>)
    requires b == a + x && c == b + y
    ensures c == a + (x + y)
  {
  }

  // Setting a page's entry changes no directory entry.
  lemma BoughtSame(free0: seq<nat>, free1: seq<nat>, t0: Tables, t1: Tables, t2: Tables, d: nat, p: nat, n: nat)
    requires Shape(t0) && Shape(t1) && Shape(t2) && Bought(free0, free1, t0, t1, d, p, n) && d in t1 && d in t2 && t2[d] == t1[d]
    ensures Bought(free0, free1, t0, t2, d, p, n)
  {
    EntriesSame(t1, t2, d);
    hide Entries;
  }

  // The frames for n pages from p on, and for the tables of theirs that are missing in e.
  function Need(e: set<nat>, p: nat, n: nat): nat {
    n + |Span(p, n) - e|
  }

  lemma NeedIs(e: set<nat>, p: nat, n: nat)
    ensures Need(e, p, n) == n + |e + Span(p, n)| - |e|
  {
    UnionSize(e, Span(p, n));
  }

  lemma UnionSize(e: set<nat>, x: set<nat>)
    ensures |e + x| == |e| + |x - e|
  {
    assert e + x == e + (x - e);
  }

  lemma NeedMore(e: set<nat>, p: nat, m: nat, n: nat)
    requires m <= n
    ensures Need(e, p, m) + (n - m) <= Need(e, p, n)
  {
    SpanPrefix(p, m, n);
    Smaller(Span(p, m) - e, Span(p, n) - e);
  }

  lemma Smaller(x: set<nat>, y: set<nat>)
    requires x <= y
    ensures |x| <= |y|
  {
    assert y == x + (y - x);
  }

  lemma SmallerBy(x: set<nat>, y: set<nat>, i: nat)
    requires x <= y && i in y && i !in x
    ensures |x| < |y|
  {
    Smaller(x + {i}, y);
  }

  // Another page needs a frame, and another one if its table is missing.
  lemma NeedNext(e: set<nat>, p: nat, n: nat)
    ensures Need(e, p, 0) == 0
    ensures Need(e, p, n + 1) == Need(e, p, n) + 1 + if (p + n) / NPTENTRIES in e + Span(p, n) then 0 else 1
  {
    var i := (p + n) / NPTENTRIES;
    SpanNext(p, n);
    if i in e + Span(p, n) {
      assert Span(p, n + 1) - e == Span(p, n) - e;
    } else {
      assert Span(p, n + 1) - e == (Span(p, n) - e) + {i};
    }
  }

  // Directory d has got pages p .. p + n - 1 and their tables, all from the free list.
  ghost predicate Spent(free0: seq<nat>, free1: seq<nat>, t0: Tables, t1: Tables, d: nat, p: nat, n: nat)
    requires Shape(t0) && Shape(t1)
  {
    Entries(t1, d) == Entries(t0, d) + Span(p, n) && |free1| + n + |Entries(t1, d)| == |free0| + |Entries(t0, d)|
  }

  // The frames that pages p .. p + n - 1 of directory d need, page tables included.
  ghost function Needs(t: Tables, d: nat, p: nat, n: nat): nat
    requires Shape(t)
  {
    Need(Entries(t, d), p, n)
  }

  lemma SpentNone(free: seq<nat>, t: Tables, d: nat, p: nat)
    requires Shape(t)
    ensures Spent(free, free, t, t, d, p, 0)
  {
    SpanOne(p);
  }

  lemma SpentMore(free0: seq<nat>, free1: seq<nat>, free2: seq<nat>, t0: Tables, t1: Tables, t2: Tables, d: nat, p: nat, n: nat)
    requires Shape(t0) && Shape(t1) && Shape(t2) && free1 != []
    requires Spent(free0, free1, t0, t1, d, p, n) && Bought(free1[1..], free2, t1, t2, d, p + n, 1)
    ensures Spent(free0, free2, t0, t2, d, p, n + 1)
  {
    SpanMore(p, n, 1);
    hide Entries, Span;
    UnionTrans(Entries(t0, d), Entries(t1, d), Entries(t2, d), Span(p, n), Span(p + n, 1));
  }

  lemma SpentAll(free0: seq<nat>, free1: seq<nat>, t0: Tables, t1: Tables, d: nat, p: nat, n: nat)
    requires Shape(t0) && Shape(t1) && Spent(free0, free1, t0, t1, d, p, n)
    ensures |free0| == |free1| + Needs(t0, d, p, n)
  {
    NeedIs(Entries(t0, d), p, n);
    hide Entries, Span;
  }

  // Not enough is left for page p + i, hence not enough for all n pages.
  lemma SpentOut(free0: seq<nat>, free1: seq<nat>, t0: Tables, t1: Tables, d: nat, p: nat, i: nat, n: nat)
    requires Shape(t0) && Shape(t1) && Spent(free0, free1, t0, t1, d, p, i) && i < n
    requires free1 == [] || (|free1| == 1 && Lacks(t1, d, (p + i) / NPTENTRIES))
    ensures |free0| < Needs(t0, d, p, n)
  {
    SpentAll(free0, free1, t0, t1, d, p, i);
    hide Entries, Span, Need;
    NextNeed(Entries(t0, d), Entries(t1, d), p, i, n);
  }

  lemma NextNeed(e: set<nat>, e1: set<nat>, p: nat, i: nat, n: nat)
    requires e1 == e + Span(p, i) && i < n
    ensures Need(e, p, i) < Need(e, p, n)
    ensures (p + i) / NPTENTRIES !in e1 ==> Need(e, p, i) + 1 < Need(e, p, n)
  {
    NeedNext(e, p, i);
    hide Span, Need;
    NeedMore(e, p, i + 1, n);
  }

  // No page and no table: no frame.
  lemma BoughtNothing(free0: seq<nat>, free1: seq<nat>, t0: Tables, t1: Tables, d: nat, p: nat, i: nat)
    requires Shape(t0) && Shape(t1) && Bought(free0, free1, t0, t1, d, p, 0)
    ensures |free0| == |free1| && (Lacks(t1, d, i) <==> Lacks(t0, d, i))
  {
    SpanOne(p);
    hide Entries;
    assert Entries(t1, d) == Entries(t0, d);
  }

  // ---- what the steps on tables do to the entries ----

  lemma EntriesAdded(t: Tables, d: nat, i: nat, f: nat, perm: nat)
    requires Shape(t) && d in t && i < NPDENTRIES && f !in t
    ensures Shape(WithTable(t, d, i, f, perm)) && Entries(WithTable(t, d, i, f, perm), d) == Entries(t, d) + {i}
  {
    var t' := WithTable(t, d, i, f, perm);
    forall j: nat | j < NPDENTRIES ensures HasTable(t', d, j) <==> HasTable(t, d, j) || j == i {
    }
    hide HasTable, WithTable;
  }

  lemma EntriesSame(t0: Tables, t1: Tables, d: nat)
    requires Shape(t0) && Shape(t1) && d in t0 && d in t1 && t1[d] == t0[d]
    ensures Entries(t1, d) == Entries(t0, d)
  {
    forall j: nat | j < NPDENTRIES ensures HasTable(t1, d, j) <==> HasTable(t0, d, j) {
    }
  }

  lemma EntriesOfEmpty(t: Tables, d: nat)
    requires Shape(t) && d in t && t[d] == EmptyTable()
    ensures Entries(t, d) == {}
  {
  }

  lemma EntryAt(t: Tables, d: nat, p: nat)
    requires Shape(t) && d in t && p < PAGES
    ensures t[d][p / NPTENTRIES].Entry? <==> p / NPTENTRIES in Entries(t, d)
  {
    assert HasTable(t, d, p / NPTENTRIES) <==> t[d][p / NPTENTRIES].Entry?;
  }
}
