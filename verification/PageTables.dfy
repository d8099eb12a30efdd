// Two-level page tables (vm.c): who owns each physical frame, and the flat map from pages to frames
// that a directory stands for.  Pages and frames are counted in units of 4096 bytes.
module PageTables {
  const NPDENTRIES: nat := 1024
  const NPTENTRIES: nat := 1024
  const PAGES: nat := 0x10_0000       // pages of the 32-bit address space
  const UPAGES: nat := 0x8_0000       // pages below KERNBASE
  const PTE_W: nat := 2
  const PTE_U: nat := 4

  // A directory or table entry: PTE_P clear, or a frame with the other flags.
  datatype Pte = Absent | Entry(frame: nat, perm: nat)

  type Tables = map<nat, seq<Pte>>

  // What a frame is used for.
  datatype Role = DirOf | TableOf(dir: nat, index: nat) | PageOf(dir: nat, page: nat)

  function EmptyEntries(n: nat): (t: seq<Pte>)
    ensures |t| == n && forall k :: 0 <= k < n ==> t[k] == Absent
  {
    if n == 0 then [] else EmptyEntries(n - 1) + [Absent]
  }

  function EmptyTable(): (t: seq<Pte>)
    ensures |t| == NPTENTRIES && forall k :: 0 <= k < NPTENTRIES ==> t[k] == Absent
  {
    EmptyEntries(NPTENTRIES)
  }

  ghost predicate Shape(tables: Tables) {
    forall f :: f in tables ==> |tables[f]| == NPTENTRIES
  }

  // The flat map: the entry for page p under directory d.
  function Flat(tables: Tables, d: nat, p: nat): Pte
    requires Shape(tables) && p < PAGES
  {
    if d !in tables || tables[d][p / NPTENTRIES].Absent? then Absent
    else
      var t := tables[d][p / NPTENTRIES].frame;
      if t in tables then tables[t][p % NPTENTRIES] else Absent
  }

  predicate IsDir(own: map<nat, Role>, d: nat) { d in own && own[d].DirOf? }

  predicate PdeOk(tables: Tables, own: map<nat, Role>, d: nat, i: nat)
    requires Shape(tables) && i < NPDENTRIES
  {
    && d in tables
    && (tables[d][i].Entry? ==>
          && tables[d][i].frame in own && own[tables[d][i].frame] == TableOf(d, i)
          && tables[d][i].perm == PTE_W + PTE_U)
  }

  predicate PteOk(tables: Tables, own: map<nat, Role>, d: nat, p: nat)
    requires Shape(tables) && p < UPAGES
  {
    Flat(tables, d, p).Entry? ==>
      Flat(tables, d, p).frame in own && own[Flat(tables, d, p).frame] == PageOf(d, p)
  }

  predicate RoleOk(tables: Tables, own: map<nat, Role>, f: nat)
    requires Shape(tables) && f in own
  {
    match own[f]
    case DirOf => f in tables
    case TableOf(d, i) => f in tables && IsDir(own, d) && d in tables && i < NPDENTRIES && tables[d][i].Entry? && tables[d][i].frame == f
    case PageOf(d, p) => f !in tables && IsDir(own, d) && p < UPAGES && Flat(tables, d, p).Entry? && Flat(tables, d, p).frame == f
  }

  // Every frame in use is a directory, the table of exactly one directory entry, or the user page of
  // exactly one page of exactly one directory.  Directory entries leave all access to the tables.
  ghost predicate Owned(tables: Tables, own: map<nat, Role>) {
    && Shape(tables)
    && (forall f :: f in own ==> RoleOk(tables, own, f))
    && (forall f :: f in tables ==> f in own && !own[f].PageOf?)
    && (forall d, i :: IsDir(own, d) && 0 <= i < NPDENTRIES ==> PdeOk(tables, own, d, i))
    && (forall d, p :: IsDir(own, d) && 0 <= p < UPAGES ==> PteOk(tables, own, d, p))
  }

  // ---- the steps ----

  // walkpgdir puts a fresh empty table into an empty directory entry.
  function WithTable(tables: Tables, d: nat, i: nat, f: nat, perm: nat): Tables
    requires d in tables && i < |tables[d]|
  {
    tables[f := EmptyTable()][d := tables[d][i := Entry(f, perm)]]
  }

  lemma TableFlat(tables: Tables, own: map<nat, Role>, d: nat, i: nat, f: nat, perm: nat, e: nat, q: nat)
    requires Owned(tables, own) && IsDir(own, d) && d in tables && i < NPDENTRIES && tables[d][i].Absent? && f !in own
    requires IsDir(own, e) && q < PAGES
    ensures Shape(WithTable(tables, d, i, f, perm)) && Flat(WithTable(tables, d, i, f, perm), e, q) == Flat(tables, e, q)
  {
    assert PdeOk(tables, own, e, q / NPTENTRIES);
    var t := tables[e][q / NPTENTRIES];
    if t.Entry? {
      assert t.frame in own && own[t.frame] == TableOf(e, q / NPTENTRIES);
    }
  }

  lemma AddTable(tables: Tables, own: map<nat, Role>, d: nat, i: nat, f: nat, perm: nat)
    requires perm == PTE_W + PTE_U
    requires Owned(tables, own) && IsDir(own, d) && d in tables && i < NPDENTRIES && tables[d][i].Absent? && f !in own
    ensures var t := WithTable(tables, d, i, f, perm);
      Owned(t, own[f := TableOf(d, i)])
      && forall e, q :: IsDir(own, e) && 0 <= q < PAGES ==> Flat(t, e, q) == Flat(tables, e, q)
  {
    var t := WithTable(tables, d, i, f, perm);
    var own' := own[f := TableOf(d, i)];
    forall e, q | IsDir(own, e) && 0 <= q < PAGES ensures Flat(t, e, q) == Flat(tables, e, q) {
      TableFlat(tables, own, d, i, f, perm, e, q);
    }
    hide Flat;
    forall g | g in own' ensures RoleOk(t, own', g) {
      if g != f { assert RoleOk(tables, own, g); }
    }
    forall e, j | IsDir(own', e) && 0 <= j < NPDENTRIES ensures PdeOk(t, own', e, j) {
      assert PdeOk(tables, own, e, j);
    }
    forall e, q | IsDir(own', e) && 0 <= q < UPAGES ensures PteOk(t, own', e, q) {
      assert PteOk(tables, own, e, q);
    }
  }

  // ---- access ----

  predicate Has(perm: nat, bit: nat)
    requires bit > 0
  {
    perm / bit % 2 == 1
  }

  // What the processor lets through: both the directory entry and the page's entry must be there and have the
  // flag, PTE_U for the user and PTE_W for writing.
  predicate Allows(tables: Tables, d: nat, p: nat, bit: nat)
    requires Shape(tables) && p < PAGES && bit > 0
  {
    && d in tables && tables[d][p / NPTENTRIES].Entry? && Has(tables[d][p / NPTENTRIES].perm, bit)
    && tables[d][p / NPTENTRIES].frame in tables
    && var x := tables[tables[d][p / NPTENTRIES].frame][p % NPTENTRIES];
    x.Entry? && Has(x.perm, bit)
  }

  // So the page's own entry decides.
  lemma AccessIs(tables: Tables, own: map<nat, Role>, d: nat, p: nat, bit: nat)
    requires Owned(tables, own) && IsDir(own, d) && p < PAGES && (bit == PTE_W || bit == PTE_U)
    ensures Allows(tables, d, p, bit) <==> Flat(tables, d, p).Entry? && Has(Flat(tables, d, p).perm, bit)
  {
    assert PdeOk(tables, own, d, p / NPTENTRIES);
  }

  // *pte = ... for page p, whose table is there.
  function WithPte(tables: Tables, d: nat, p: nat, x: Pte): Tables
    requires Shape(tables) && d in tables && p < PAGES && tables[d][p / NPTENTRIES].Entry?
    requires tables[d][p / NPTENTRIES].frame in tables
  {
    var t := tables[d][p / NPTENTRIES].frame;
    tables[t := tables[t][p % NPTENTRIES := x]]
  }

  lemma PteFlat(tables: Tables, own: map<nat, Role>, d: nat, p: nat, x: Pte, e: nat, q: nat)
    requires Owned(tables, own) && IsDir(own, d) && d in tables && p < PAGES && tables[d][p / NPTENTRIES].Entry?
    requires tables[d][p / NPTENTRIES].frame in tables
    requires IsDir(own, e) && q < PAGES
    ensures Shape(WithPte(tables, d, p, x))
    ensures Flat(WithPte(tables, d, p, x), e, q) == if e == d && q == p then x else Flat(tables, e, q)
  {
    assert PdeOk(tables, own, d, p / NPTENTRIES) && PdeOk(tables, own, e, q / NPTENTRIES);
    assert p == p / NPTENTRIES * NPTENTRIES + p % NPTENTRIES && q == q / NPTENTRIES * NPTENTRIES + q % NPTENTRIES;
  }

  lemma PteDirs(tables: Tables, own: map<nat, Role>, d: nat, p: nat, x: Pte)
    requires Owned(tables, own) && IsDir(own, d) && d in tables && p < PAGES && tables[d][p / NPTENTRIES].Entry?
    requires tables[d][p / NPTENTRIES].frame in tables
    ensures var t := WithPte(tables, d, p, x);
      && Shape(t) && t.Keys == tables.Keys
      && (forall e :: IsDir(own, e) && e in tables ==> e in t && t[e] == tables[e])
      && (forall e, q :: IsDir(own, e) && 0 <= q < PAGES ==> Flat(t, e, q) == if e == d && q == p then x else Flat(tables, e, q))
  {
    assert PdeOk(tables, own, d, p / NPTENTRIES);
    var t := WithPte(tables, d, p, x);
    forall e, q | IsDir(own, e) && 0 <= q < PAGES ensures Flat(t, e, q) == if e == d && q == p then x else Flat(tables, e, q) {
      PteFlat(tables, own, d, p, x, e, q);
    }
  }

  // A fresh frame becomes user page p.
  lemma AddPage(tables: Tables, own: map<nat, Role>, d: nat, p: nat, f: nat, perm: nat)
    requires Owned(tables, own) && IsDir(own, d) && d in tables && p < UPAGES && tables[d][p / NPTENTRIES].Entry?
    requires tables[d][p / NPTENTRIES].frame in tables
    requires Flat(tables, d, p).Absent? && f !in own
    ensures Owned(WithPte(tables, d, p, Entry(f, perm)), own[f := PageOf(d, p)])
  {
    var t := WithPte(tables, d, p, Entry(f, perm));
    var own' := own[f := PageOf(d, p)];
    PteDirs(tables, own, d, p, Entry(f, perm));
    hide Flat, WithPte;
    forall g | g in own' ensures RoleOk(t, own', g) {
      if g != f { assert RoleOk(tables, own, g); }
    }
    forall e, j | IsDir(own', e) && 0 <= j < NPDENTRIES ensures PdeOk(t, own', e, j) {
      assert PdeOk(tables, own, e, j);
    }
    forall e, q | IsDir(own', e) && 0 <= q < UPAGES ensures PteOk(t, own', e, q) {
      assert PteOk(tables, own, e, q);
    }
  }

  // A kernel page is mapped: no frame changes hands.
  lemma AddKernelPage(tables: Tables, own: map<nat, Role>, d: nat, p: nat, x: Pte)
    requires Owned(tables, own) && IsDir(own, d) && d in tables && UPAGES <= p < PAGES && tables[d][p / NPTENTRIES].Entry?
    requires tables[d][p / NPTENTRIES].frame in tables
    ensures Owned(WithPte(tables, d, p, x), own)
  {
    var t := WithPte(tables, d, p, x);
    PteDirs(tables, own, d, p, x);
    hide Flat, WithPte;
    forall g | g in own ensures RoleOk(t, own, g) {
      assert RoleOk(tables, own, g);
    }
    forall e, j | IsDir(own, e) && 0 <= j < NPDENTRIES ensures PdeOk(t, own, e, j) {
      assert PdeOk(tables, own, e, j);
    }
    forall e, q | IsDir(own, e) && 0 <= q < UPAGES ensures PteOk(t, own, e, q) {
      assert PteOk(tables, own, e, q);
    }
  }

  // User page p is unmapped and its frame given back.
  lemma DropPage(tables: Tables, own: map<nat, Role>, d: nat, p: nat)
    requires Owned(tables, own) && IsDir(own, d) && p < UPAGES && Flat(tables, d, p).Entry?
    ensures var f := Flat(tables, d, p).frame;
      && d in tables && tables[d][p / NPTENTRIES].Entry? && tables[d][p / NPTENTRIES].frame in tables
      && f in own && own[f] == PageOf(d, p) && f !in tables
      && Owned(WithPte(tables, d, p, Absent), own - {f})
  {
    assert PdeOk(tables, own, d, p / NPTENTRIES) && PteOk(tables, own, d, p);
    var f := Flat(tables, d, p).frame;
    assert RoleOk(tables, own, f);
    assert RoleOk(tables, own, tables[d][p / NPTENTRIES].frame);
    PteDirs(tables, own, d, p, Absent);
    var t := WithPte(tables, d, p, Absent);
    var own' := own - {f};
    hide Flat, WithPte;
    forall g | g in own' ensures RoleOk(t, own', g) {
      assert RoleOk(tables, own, g);
    }
    forall e, j | IsDir(own', e) && 0 <= j < NPDENTRIES ensures PdeOk(t, own', e, j) {
      assert PdeOk(tables, own, e, j);
    }
    forall e, q | IsDir(own', e) && 0 <= q < UPAGES ensures PteOk(t, own', e, q) {
      assert PteOk(tables, own, e, q);
      assert Flat(tables, e, q).Entry? && Flat(tables, e, q).frame == f ==> e == d && q == p;
    }
  }

  // setupkvm: a fresh empty directory.
  lemma AddDir(tables: Tables, own: map<nat, Role>, f: nat)
    requires Owned(tables, own) && f !in own
    ensures var t := tables[f := EmptyTable()];
      && Owned(t, own[f := DirOf])
      && (forall e, q :: IsDir(own, e) && 0 <= q < PAGES ==> Flat(t, e, q) == Flat(tables, e, q))
      && (forall q :: 0 <= q < PAGES ==> Flat(t, f, q) == Absent)
  {
    var t := tables[f := EmptyTable()];
    var own' := own[f := DirOf];
    assert f !in tables;
    forall e, q | IsDir(own, e) && 0 <= q < PAGES ensures Flat(t, e, q) == Flat(tables, e, q) {
      assert PdeOk(tables, own, e, q / NPTENTRIES);
    }
    forall q | 0 <= q < PAGES ensures Flat(t, f, q) == Absent {
      assert 0 <= q / NPTENTRIES < NPTENTRIES;
    }
    hide Flat;
    forall g | g in own' ensures RoleOk(t, own', g) {
      if g != f { assert RoleOk(tables, own, g); }
    }
    forall e, j | IsDir(own', e) && 0 <= j < NPDENTRIES ensures PdeOk(t, own', e, j) {
      if e != f { assert PdeOk(tables, own, e, j); }
    }
    forall e, q | IsDir(own', e) && 0 <= q < UPAGES ensures PteOk(t, own', e, q) {
      if e != f { assert PteOk(tables, own, e, q); }
    }
  }

  ghost predicate NoUserPages(tables: Tables, d: nat)
    requires Shape(tables)
  {
    forall q :: 0 <= q < UPAGES ==> Flat(tables, d, q).Absent?
  }

  function WithoutTable(tables: Tables, d: nat, i: nat): Tables
    requires d in tables && i < |tables[d]| && tables[d][i].Entry?
  {
    (tables - {tables[d][i].frame})[d := tables[d][i := Absent]]
  }

  // freevm gives back the table of entry i.
  lemma DropTable(tables: Tables, own: map<nat, Role>, d: nat, i: nat)
    requires Owned(tables, own) && IsDir(own, d) && i < NPDENTRIES && NoUserPages(tables, d)
    ensures d in tables
    ensures tables[d][i].Entry? ==>
              var f := tables[d][i].frame; var t := WithoutTable(tables, d, i);
              && f in own && own[f] == TableOf(d, i)
              && Owned(t, own - {f}) && NoUserPages(t, d)
              && (forall e, q :: IsDir(own, e) && e != d && 0 <= q < PAGES ==> Flat(t, e, q) == Flat(tables, e, q))
  {
    assert PdeOk(tables, own, d, i);
    if tables[d][i].Entry? {
      var f := tables[d][i].frame;
      var t := WithoutTable(tables, d, i);
      var own' := own - {f};
      assert Shape(t);
      forall e, q | IsDir(own, e) && 0 <= q < PAGES
        ensures Flat(t, e, q) == if e == d && q / NPTENTRIES == i then Absent else Flat(tables, e, q)
      {
        DropTableFlat(tables, own, d, i, e, q);
      }
      assert NoUserPages(t, d);
      hide Flat;
      forall g | g in own' ensures RoleOk(t, own', g) {
        assert RoleOk(tables, own, g);
      }
      forall e, j | IsDir(own', e) && 0 <= j < NPDENTRIES ensures PdeOk(t, own', e, j) {
        assert PdeOk(tables, own, e, j);
      }
      forall e, q | IsDir(own', e) && 0 <= q < UPAGES ensures PteOk(t, own', e, q) {
        assert PteOk(tables, own, e, q);
      }
    }
  }

  lemma DropTableFlat(tables: Tables, own: map<nat, Role>, d: nat, i: nat, e: nat, q: nat)
    requires Owned(tables, own) && IsDir(own, d) && d in tables && i < NPDENTRIES && tables[d][i].Entry?
    requires IsDir(own, e) && q < PAGES
    ensures var t := WithoutTable(tables, d, i);
      Shape(t) && Flat(t, e, q) == if e == d && q / NPTENTRIES == i then Absent else Flat(tables, e, q)
  {
    assert PdeOk(tables, own, d, i) && PdeOk(tables, own, e, q / NPTENTRIES);
  }

  // freevm gives back the directory itself, all of whose entries are cleared.
  lemma DropDir(tables: Tables, own: map<nat, Role>, d: nat)
    requires Owned(tables, own) && IsDir(own, d) && d in tables
    requires forall i :: 0 <= i < NPDENTRIES ==> tables[d][i].Absent?
    ensures Owned(tables - {d}, own - {d})
    ensures forall f :: f in own ==> match own[f] { case DirOf => true case TableOf(e, _) => e != d case PageOf(e, _) => e != d }
    ensures forall e, q :: IsDir(own, e) && e != d && 0 <= q < PAGES ==> Flat(tables - {d}, e, q) == Flat(tables, e, q)
  {
    var t := tables - {d};
    var own' := own - {d};
    forall f | f in own ensures match own[f] { case DirOf => true case TableOf(e, _) => e != d case PageOf(e, _) => e != d } {
      assert RoleOk(tables, own, f);
    }
    forall e, q | IsDir(own, e) && e != d && 0 <= q < PAGES ensures Flat(t, e, q) == Flat(tables, e, q) {
      assert PdeOk(tables, own, e, q / NPTENTRIES);
    }
    hide Flat;
    forall g | g in own' ensures RoleOk(t, own', g) {
      assert RoleOk(tables, own, g);
    }
    forall e, j | IsDir(own', e) && 0 <= j < NPDENTRIES ensures PdeOk(t, own', e, j) {
      assert PdeOk(tables, own, e, j);
    }
    forall e, q | IsDir(own', e) && 0 <= q < UPAGES ensures PteOk(t, own', e, q) {
      assert PteOk(tables, own, e, q);
    }
  }
}
