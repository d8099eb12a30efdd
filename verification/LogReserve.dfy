// Concurrent system calls and the space they reserve in the log: begin_op, log_write, end_op
// and the hand-over to commit, as steps between which other processes can get in (log.c).  All but
// one hold log.lock: log_write looks for room before it takes the lock.
module LogReserve {
  import opened Params

  type Pid = nat

  // `logged` holds the block numbers in lh.block, so lh.n is |logged|; `active` says how many new
  // blocks each running operation has added; `passed` has the operations that found room for a block
  // in log_write and have not added it yet; `asleep` are the processes sleeping on the log.
  datatype State = State(
    size: nat,
    logged: set<nat>,
    outstanding: int,
    committing: bool,
    active: map<Pid, nat>,
    passed: map<Pid, nat>,
    asleep: set<Pid>,
    committer: Option<Pid>,
    panicked: bool)

  datatype Event =
    | BeginOp(p: Pid)              // one turn of the loop in begin_op
    | LogCheck(p: Pid, b: nat)     // log_write of block b, up to taking log.lock
    | LogAdd(p: Pid)               // the rest of it
    | EndOp(p: Pid)                // up to the release of log.lock
    | Committed(p: Pid)            // commit() has emptied the log
    | CommitDone(p: Pid)           // the second critical section of end_op

  function Init(size: nat): State {
    State(size, {}, 0, false, map[], map[], {}, None, false)
  }

  // What the callers must respect: begin_op first, at most MAXOPBLOCKS new blocks, then end_op.
  predicate Enabled(s: State, e: Event) {
    && !s.panicked
    && match e
       case BeginOp(p) => p !in s.active && p !in s.asleep && s.committer != Some(p)
       case LogCheck(p, b) => p in s.active && p !in s.passed && (b in s.logged || s.active[p] < MAXOPBLOCKS)
       case LogAdd(p) => p in s.passed
       case EndOp(p) => p in s.active && p !in s.passed
       case Committed(p) => s.committer == Some(p)
       case CommitDone(p) => s.committer == Some(p) && s.logged == {}
  }

  function Next(s: State, e: Event): State
    requires Enabled(s, e)
  {
    match e
    case BeginOp(p) =>
      if s.committing || |s.logged| + (s.outstanding + 1) * MAXOPBLOCKS > LOGSIZE then
        s.(asleep := s.asleep + {p})
      else
        s.(outstanding := s.outstanding + 1, active := s.active[p := 0])
    case LogCheck(p, b) =>
      if |s.logged| >= LOGSIZE || |s.logged| >= s.size - 1 || s.outstanding < 1 then
        s.(panicked := true)
      else s.(passed := s.passed[p := b])
    case LogAdd(p) =>
      var b, s1 := s.passed[p], s.(passed := s.passed - {p});
      if b in s.logged || p !in s.active then s1
      else s1.(logged := s.logged + {b}, active := s.active[p := s.active[p] + 1])
    case EndOp(p) =>
      var s1 := s.(outstanding := s.outstanding - 1, active := s.active - {p});
      if s.committing then s1.(panicked := true)
      else if s1.outstanding == 0 then s1.(committing := true, committer := Some(p))
      else s1.(asleep := {})
    case Committed(p) => s.(logged := {})
    case CommitDone(p) => s.(committing := false, committer := None, asleep := {})
  }

  // ---- the space promised to the running operations ----

  ghost function Unused(m: map<Pid, nat>): int {
    if m == map[] then 0
    else
      var p :| p in m;
      MAXOPBLOCKS - m[p] + Unused(m - {p})
  }

  lemma {:induction false} UnusedMinus(m: map<Pid, nat>, p: Pid)
    requires p in m
    ensures Unused(m) == MAXOPBLOCKS - m[p] + Unused(m - {p})
    decreases |m|
  {
    var q :| q in m && Unused(m) == MAXOPBLOCKS - m[q] + Unused(m - {q});
    if q != p {
      UnusedMinus(m - {q}, p);
      UnusedMinus(m - {p}, q);
      assert m - {q} - {p} == m - {p} - {q};
    }
  }

  lemma UnusedUpdate(m: map<Pid, nat>, p: Pid, u: nat)
    ensures Unused(m[p := u]) == (if p in m then Unused(m) + m[p] else Unused(m) + MAXOPBLOCKS) - u
  {
    UnusedMinus(m[p := u], p);
    assert m[p := u] - {p} == m - {p};
    if p in m {
      UnusedMinus(m, p);
    } else {
      assert m - {p} == m;
    }
  }

  lemma {:induction false} UnusedBound(m: map<Pid, nat>)
    requires forall p :: p in m ==> m[p] <= MAXOPBLOCKS
    ensures 0 <= Unused(m) <= MAXOPBLOCKS * |m|
    decreases |m|
  {
    if m != map[] {
      var p :| p in m;
      UnusedMinus(m, p);
      UnusedBound(m - {p});
    }
  }

  ghost predicate Inv(s: State) {
    && s.outstanding == |s.active|
    && (forall p :: p in s.active ==> s.active[p] <= MAXOPBLOCKS)
    && |s.logged| + Unused(s.active) <= LOGSIZE
    && (s.committing <==> s.committer.Some?)
    && (s.committing ==> s.outstanding == 0)
    && (!s.committing && s.outstanding == 0 ==> s.logged == {})
    && (s.asleep != {} ==> s.committing || |s.logged| + (s.outstanding + 1) * MAXOPBLOCKS > LOGSIZE)
    && s.asleep !! s.active.Keys
    && (forall p :: p in s.passed ==> p in s.active && (s.passed[p] in s.logged || s.active[p] < MAXOPBLOCKS))
  }

  lemma InvInit(size: nat)
    ensures Inv(Init(size))
  {
    UnusedBound(map[]);
  }

  // log_write within the operation's budget.
  predicate Strict(s: State, e: Event) {
    Enabled(s, e) && (e.LogCheck? ==> s.active[e.p] < MAXOPBLOCKS)
  }

  // Every step keeps the invariant.  The only panic left is log_write's "too big a transaction": the log
  // area has no block left, or the header is full.
  lemma InvNext(s: State, e: Event)
    requires Inv(s) && Enabled(s, e)
    ensures Next(s, e).panicked <==> e.LogCheck? && (|s.logged| >= s.size - 1 || |s.logged| == LOGSIZE)
    ensures !Next(s, e).panicked ==> Inv(Next(s, e))
  {
    match e
    case BeginOp(p) => InvBeginOp(s, p);
    case LogCheck(p, b) => LogWriteFits(s, p);
    case LogAdd(p) => InvLogAdd(s, p);
    case EndOp(p) => InvEndOp(s, p);
    case Committed(p) => UnusedBound(s.active);
    case CommitDone(p) => UnusedBound(s.active);
  }

  lemma InvBeginOp(s: State, p: Pid)
    requires Inv(s) && Enabled(s, BeginOp(p))
    ensures Inv(Next(s, BeginOp(p)))
  {
    UnusedBound(s.active);
    UnusedUpdate(s.active, p, 0);
  }

  lemma InvLogAdd(s: State, p: Pid)
    requires Inv(s) && Enabled(s, LogAdd(p))
    ensures !Next(s, LogAdd(p)).panicked && Inv(Next(s, LogAdd(p)))
  {
    LogWriteFits(s, p);
    if s.passed[p] !in s.logged {
      UnusedUpdate(s.active, p, s.active[p] + 1);
    }
  }

  lemma InvEndOp(s: State, p: Pid)
    requires Inv(s) && Enabled(s, EndOp(p))
    ensures !Next(s, EndOp(p)).panicked && Inv(Next(s, EndOp(p)))
  {
    UnusedBound(s.active);
    UnusedMinus(s.active, p);
    assert |s.active - {p}| == |s.active| - 1;
  }

  // An operation with budget left finds room in the header, now and when it adds the block.
  lemma LogWriteFits(s: State, p: Pid)
    requires Inv(s) && p in s.active
    ensures |s.logged| <= LOGSIZE && (s.active[p] < MAXOPBLOCKS ==> |s.logged| < LOGSIZE)
    ensures s.outstanding >= 1
  {
    UnusedMinus(s.active, p);
    UnusedBound(s.active - {p});
    assert |s.active - {p}| == |s.active| - 1;
  }

  // An operation gets in, or goes to sleep, only through begin_op: in exactly if no commit is under way
  // and all that it may log still fits beside what is logged and promised.
  lemma LetIn(s: State, e: Event, p: Pid)
    requires Enabled(s, e)
    ensures var t := Next(s, e); var fits := !s.committing && |s.logged| + (s.outstanding + 1) * MAXOPBLOCKS <= LOGSIZE;
      && (p in t.active && p !in s.active <==> e == BeginOp(p) && fits)
      && (p in t.asleep && p !in s.asleep <==> e == BeginOp(p) && !fits)
      && (p in t.active && p !in s.active ==> t.active[p] == 0 && t.outstanding == s.outstanding + 1)
  {
  }

  // It gets out through end_op; the last one out, and nobody else, commits.  Whoever slept is woken by an
  // operation that is not the last and by the end of a commit.
  lemma LetOut(s: State, e: Event, p: Pid)
    requires Enabled(s, e) && Inv(s)
    ensures var t := Next(s, e);
      && (p in s.active && p !in t.active <==> e == EndOp(p))
      && (t.committer == Some(p) && s.committer != Some(p) <==> e == EndOp(p) && s.outstanding == 1)
      && (s.committer == Some(p) && t.committer != Some(p) <==> e == CommitDone(p))
      && (p in s.asleep && p !in t.asleep <==> p in s.asleep && (e.CommitDone? || (e.EndOp? && s.outstanding != 1)))
  {
    if e.EndOp? { InvEndOp(s, e.p); }
  }

  // A block gets into the header only by the operation that found room for it, which is charged for it,
  // and leaves only when the commit is through.
  lemma LoggedBy(s: State, e: Event, b: nat)
    requires Enabled(s, e) && Inv(s)
    ensures var t := Next(s, e);
      && (b in t.logged && b !in s.logged <==> e.LogAdd? && s.passed[e.p] == b && b !in s.logged)
      && (b in t.logged && b !in s.logged ==> t.active == s.active[e.p := s.active[e.p] + 1])
      && (b in s.logged && b !in t.logged <==> b in s.logged && e.Committed?)
  {
  }

  // log_write panics or finds room for just the block it was called for, and adding it uses that up.
  lemma PassedBy(s: State, e: Event, p: Pid)
    requires Enabled(s, e) && Inv(s)
    ensures var t := Next(s, e);
      && (p in t.passed && p !in s.passed <==> e.LogCheck? && e.p == p && !t.panicked)
      && (p in t.passed && p !in s.passed ==> t.passed[p] == e.b)
      && (p in s.passed && p !in t.passed <==> e == LogAdd(p))
      && (p in s.passed && p in t.passed ==> t.passed[p] == s.passed[p])
  {
    if e.EndOp? { InvEndOp(s, e.p); }
  }

  // ---- runs ----

  predicate ValidRun(s: State, es: seq<Event>, strict: bool) {
    es == [] ||
    (ValidRun(s, es[..|es| - 1], strict)
     && (var t := Run(s, es[..|es| - 1]); Enabled(t, es[|es| - 1]) && (strict ==> Strict(t, es[|es| - 1]))))
  }

  function Run(s: State, es: seq<Event>): State {
    if es == [] then s
    else
      var t := Run(s, es[..|es| - 1]);
      if Enabled(t, es[|es| - 1]) then Next(t, es[|es| - 1]) else t
  }

  lemma RunSnoc(s: State, es: seq<Event>, e: Event, strict: bool)
    requires ValidRun(s, es, strict) && Enabled(Run(s, es), e) && (strict ==> Strict(Run(s, es), e))
    ensures ValidRun(s, es + [e], strict) && Run(s, es + [e]) == Next(Run(s, es), e)
  {
    assert (es + [e])[..|es|] == es;
  }

  lemma NoEvents(s: State, strict: bool)
    ensures ValidRun(s, [], strict) && Run(s, []) == s
  {
  }

  lemma {:induction false} RunInv(size: nat, es: seq<Event>, strict: bool)
    requires ValidRun(Init(size), es, strict)
    ensures Run(Init(size), es).size == size
    ensures !Run(Init(size), es).panicked ==> Inv(Run(Init(size), es))
  {
    InvInit(size);
    if es != [] {
      RunInv(size, es[..|es| - 1], strict);
      var t := Run(Init(size), es[..|es| - 1]);
      InvNext(t, es[|es| - 1]);
    }
  }

  // With a log area of more than LOGSIZE blocks no run of operations that stay within their
  // budget ever panics in log_write.
  lemma {:induction false} NeverPanics(size: nat, es: seq<Event>)
    requires size > LOGSIZE && ValidRun(Init(size), es, true)
    ensures !Run(Init(size), es).panicked
  {
    if es != [] {
      var front := es[..|es| - 1];
      NeverPanics(size, front);
      RunInv(size, front, true);
      var t := Run(Init(size), front);
      InvNext(t, es[|es| - 1]);
      if es[|es| - 1].LogCheck? {
        LogWriteFits(t, es[|es| - 1].p);
      }
    }
  }

  // ---- a run that fills the log ----

  function UpTo(k: nat): (r: set<nat>)
    ensures |r| == k && forall b: nat :: b in r <==> b < k
  {
    if k == 0 then {} else UpTo(k - 1) + {k - 1}
  }

  function Clamp(k: int, m: nat): nat {
    if k < 0 then 0 else if k > m then m else k
  }

  function Spent(a: nat, b: nat, c: nat): (m: map<Pid, nat>)
    ensures m.Keys == {0, 1, 2} && m[0] == a && m[1] == b && m[2] == c
  {
    map[0 := a, 1 := b, 2 := c]
  }

  lemma SpentUpdate(a: nat, b: nat, c: nat, p: nat, u: nat)
    requires p < 3
    ensures Spent(a, b, c)[p := u]
            == Spent(if p == 0 then u else a, if p == 1 then u else b, if p == 2 then u else c)
  {
  }

  // Who adds block j: operation 1 the first ten, then 0 and 2 nine each, then one more each.
  function Owner(j: nat): (p: Pid)
    ensures p < 3
  {
    if j < 10 then 1 else if j < 19 || j == 28 then 0 else 2
  }

  // How many of the blocks 0 .. k - 1 each operation has added.
  function Spending(k: nat): map<Pid, nat> {
    Spent(Clamp(k - 10, 9) + Clamp(k - 28, 1), Clamp(k, 10), Clamp(k - 19, 9) + Clamp(k - 29, 1))
  }

  // Three operations have started and added the blocks 0 .. k - 1.
  function Filled(size: nat, k: nat): State {
    State(size, UpTo(k), 3, false, Spending(k), map[], {}, None, false)
  }

  function Filling(k: nat): seq<Event> {
    if k == 0 then [BeginOp(0), BeginOp(1), BeginOp(2)]
    else Filling(k - 1) + [LogCheck(Owner(k - 1), k - 1)] + [LogAdd(Owner(k - 1))]
  }

  lemma ThreeBegin(size: nat)
    ensures ValidRun(Init(size), Filling(0), true) && Run(Init(size), Filling(0)) == Filled(size, 0)
  {
    hide UpTo;
    var s := Init(size);
    assert UpTo(0) == {};
    assert map[0 := 0][1 := 0][2 := 0] == Spending(0);
    hide Run, ValidRun, Spending;
    NoEvents(s, true);
    RunSnoc(s, [], BeginOp(0), true);
    RunSnoc(s, [BeginOp(0)], BeginOp(1), true);
    RunSnoc(s, [BeginOp(0), BeginOp(1)], BeginOp(2), true);
    assert [] + [BeginOp(0)] == [BeginOp(0)];
    assert [BeginOp(0)] + [BeginOp(1)] == [BeginOp(0), BeginOp(1)];
    assert [BeginOp(0), BeginOp(1)] + [BeginOp(2)] == Filling(0);
  }

  lemma {:induction false} FillingRuns(size: nat, k: nat)
    requires k < size && k <= LOGSIZE
    ensures ValidRun(Init(size), Filling(k), true) && Run(Init(size), Filling(k)) == Filled(size, k)
  {
    hide UpTo, Enabled, Next, Filled;
    if k == 0 {
      ThreeBegin(size);
    } else {
      FillingRuns(size, k - 1);
      FillStep(size, k);
      var p := Owner(k - 1);
      RunSnoc(Init(size), Filling(k - 1), LogCheck(p, k - 1), true);
      RunSnoc(Init(size), Filling(k - 1) + [LogCheck(p, k - 1)], LogAdd(p), true);
    }
  }

  lemma SpendStep(k: nat)
    requires 0 < k <= LOGSIZE
    ensures var p := Owner(k - 1); var m := Spending(k - 1);
      && p in m && m[p] < MAXOPBLOCKS && Spending(k) == m[p := m[p] + 1]
  {
    var p := Owner(k - 1);
    SpentUpdate(Clamp(k - 11, 9) + Clamp(k - 29, 1), Clamp(k - 1, 10), Clamp(k - 20, 9) + Clamp(k - 30, 1), p, Spending(k - 1)[p] + 1);
    hide Spent;
  }

  lemma FillStep(size: nat, k: nat)
    requires 0 < k < size && k <= LOGSIZE
    ensures var p := Owner(k - 1); var s := Filled(size, k - 1); var e := LogCheck(p, k - 1);
      Strict(s, e) && var t := Next(s, e); Strict(t, LogAdd(p)) && Next(t, LogAdd(p)) == Filled(size, k)
  {
    hide UpTo, Spending, Spent, Owner, Clamp, Enabled, Next;
    UpToNext(k - 1);
    SpendStep(k);
    AddStep(Filled(size, k - 1), Owner(k - 1), k - 1);
  }

  lemma UpToNext(k: nat)
    ensures UpTo(k + 1) == UpTo(k) + {k} && k !in UpTo(k)
  {
  }

  // An operation with budget left adds a new block, while nobody else is about to.
  lemma AddStep(s: State, p: Pid, b: nat)
    requires p in s.active && s.active[p] < MAXOPBLOCKS && s.passed == map[] && !s.panicked && s.outstanding >= 1
    requires |s.logged| < LOGSIZE && |s.logged| < s.size - 1 && b !in s.logged
    ensures Strict(s, LogCheck(p, b))
    ensures var t := Next(s, LogCheck(p, b));
      Strict(t, LogAdd(p)) && Next(t, LogAdd(p)) == s.(logged := s.logged + {b}, active := s.active[p := s.active[p] + 1])
  {
    var none: map<Pid, nat> := map[];
    assert none[p := b] - {p} == none;
  }

  // Up to the last block of the header, operation 2 has budget left; up to the last but one, 0 has too.
  lemma BudgetLeft(k: nat)
    ensures k < LOGSIZE ==> 2 in Spending(k) && Spending(k)[2] < MAXOPBLOCKS
    ensures k + 1 < LOGSIZE ==> 0 in Spending(k) && Spending(k)[0] < MAXOPBLOCKS
  {
  }

  // With LOGSIZE blocks of log area, as mkfs lays it out, or fewer, such operations do run into
  // the panic: the block number size - 1 no longer fits.
  lemma SmallLogPanics(size: nat)
    requires 0 < size <= LOGSIZE
    ensures exists es :: ValidRun(Init(size), es, true) && Run(Init(size), es).panicked
  {
    hide UpTo, Next, Enabled, Run, ValidRun, Filling, Strict, Filled;
    FillingRuns(size, size - 1);
    OneTooMany(size);
    RunSnoc(Init(size), Filling(size - 1), LogCheck(2, size - 1), true);
  }

  lemma OneTooMany(size: nat)
    requires 0 < size <= LOGSIZE
    ensures var s, e := Filled(size, size - 1), LogCheck(2, size - 1);
      Enabled(s, e) && Strict(s, e) && Next(s, e).panicked
  {
    BudgetLeft(size - 1);
    hide UpTo, Spending;
  }

  // The exact condition on the log area.
  lemma PanicIffSmallLog(size: nat)
    requires size > 0
    ensures (exists es :: ValidRun(Init(size), es, true) && Run(Init(size), es).panicked) <==> size <= LOGSIZE
  {
    if size <= LOGSIZE {
      SmallLogPanics(size);
    } else {
      forall es | ValidRun(Init(size), es, true) ensures !Run(Init(size), es).panicked {
        NeverPanics(size, es);
      }
    }
  }

  // ---- leaving the log area ----

  // The log area has size - 1 blocks besides the header.
  predicate Inside(s: State) { |s.logged| < s.size }

  ghost predicate AlwaysInside(size: nat) {
    forall es :: ValidRun(Init(size), es, true) ==> Inside(Run(Init(size), es))
  }

  // Two operations find room for the last block at the same time, and both add theirs.
  lemma TwoPass(size: nat)
    requires 2 <= size <= LOGSIZE
    ensures exists es :: ValidRun(Init(size), es, true) && !Inside(Run(Init(size), es))
  {
    hide UpTo, Next, Enabled, Run, ValidRun, Filling, Filled, Inside;
    var k := size - 2;
    FillingRuns(size, k);
    var es := Filling(k);
    var s0 := Filled(size, k);
    BothAdd(size);
    RunSnoc(Init(size), es, LogCheck(0, k), true);
    RunSnoc(Init(size), es + [LogCheck(0, k)], LogCheck(2, k + 1), true);
    RunSnoc(Init(size), es + [LogCheck(0, k)] + [LogCheck(2, k + 1)], LogAdd(0), true);
    RunSnoc(Init(size), es + [LogCheck(0, k)] + [LogCheck(2, k + 1)] + [LogAdd(0)], LogAdd(2), true);
  }

  lemma BothAdd(size: nat)
    requires 2 <= size <= LOGSIZE
    ensures var k := size - 2; var s := Filled(size, k);
      && Strict(s, LogCheck(0, k))
      && var s1 := Next(s, LogCheck(0, k));
      && Strict(s1, LogCheck(2, k + 1))
      && var s2 := Next(s1, LogCheck(2, k + 1));
      && Strict(s2, LogAdd(0))
      && var s3 := Next(s2, LogAdd(0));
      && Strict(s3, LogAdd(2))
      && !Inside(Next(s3, LogAdd(2)))
  {
    var k := size - 2;
    var s := Filled(size, k);
    BudgetLeft(k);
    hide UpTo, Spending;
    BothPass(s, 0, k, 2, k + 1);
    BothEnter(s, 0, k, 2, k + 1);
  }

  // Two operations with budget left find room for one more block each.
  lemma BothPass(s: State, p: Pid, b: nat, q: Pid, c: nat)
    requires p != q && p in s.active && q in s.active && s.active[p] < MAXOPBLOCKS && s.active[q] < MAXOPBLOCKS
    requires p !in s.passed && q !in s.passed && !s.panicked && s.outstanding >= 1
    requires |s.logged| < LOGSIZE && |s.logged| < s.size - 1
    ensures Strict(s, LogCheck(p, b)) && Next(s, LogCheck(p, b)) == s.(passed := s.passed[p := b])
    ensures var s1 := s.(passed := s.passed[p := b]);
      Strict(s1, LogCheck(q, c)) && Next(s1, LogCheck(q, c)) == s.(passed := s.passed[p := b][q := c])
  {
  }

  lemma BothEnter(s: State, p: Pid, b: nat, q: Pid, c: nat)
    requires p != q && p in s.active && q in s.active && !s.panicked
    requires b !in s.logged && c !in s.logged && b != c && |s.logged| == s.size - 2
    ensures var s2 := s.(passed := s.passed[p := b][q := c]);
      && Strict(s2, LogAdd(p))
      && Strict(Next(s2, LogAdd(p)), LogAdd(q))
      && !Inside(Next(Next(s2, LogAdd(p)), LogAdd(q)))
  {
    assert |s.logged + {b}| == |s.logged| + 1;
    assert |s.logged + {b} + {c}| == |s.logged| + 2;
  }

  // With a header and nothing else no operation ever gets a block in.
  lemma {:induction false} HeaderOnly(es: seq<Event>)
    requires ValidRun(Init(1), es, true)
    ensures Run(Init(1), es).logged == {} && Run(Init(1), es).passed == map[] && Run(Init(1), es).size == 1
  {
    if es != [] {
      HeaderOnly(es[..|es| - 1]);
    }
  }

  // Operations within their budget never log more blocks than the log area holds exactly if the area has
  // more than LOGSIZE blocks (or nothing but the header).  mkfs gives it LOGSIZE: there write_log can go
  // one block beyond.
  lemma AlwaysInsideIff(size: nat)
    requires size > 0
    ensures AlwaysInside(size) <==> size > LOGSIZE || size == 1
  {
    if 2 <= size <= LOGSIZE {
      TwoPass(size);
    } else {
      forall es | ValidRun(Init(size), es, true) ensures Inside(Run(Init(size), es)) {
        if size == 1 {
          HeaderOnly(es);
        } else {
          NeverPanics(size, es);
          RunInv(size, es, true);
          UnusedBound(Run(Init(size), es).active);
        }
      }
    }
  }

  // Log absorption does not help once the header is full: log_write checks for room before it
  // looks for the block, so writing an already logged block again panics, however big the log area is.
  lemma RewritePanicsWhenFull(size: nat)
    requires size > LOGSIZE
    ensures exists es, p, b :: ValidRun(Init(size), es + [LogCheck(p, b)], false)
              && b in Run(Init(size), es).logged && Run(Init(size), es + [LogCheck(p, b)]).panicked
  {
    hide UpTo, Spending;
    FillingRuns(size, LOGSIZE);
    StrictIsValid(Init(size), Filling(LOGSIZE));
    assert 0 in Spending(LOGSIZE) by { BudgetLeft(0); FullSpending(); }
    RunSnoc(Init(size), Filling(LOGSIZE), LogCheck(0, 0), false);
    assert 0 in Run(Init(size), Filling(LOGSIZE)).logged;
  }

  lemma FullSpending()
    ensures Spending(LOGSIZE) == map[0 := MAXOPBLOCKS, 1 := MAXOPBLOCKS, 2 := MAXOPBLOCKS]
  {
  }

  lemma {:induction false} StrictIsValid(s: State, es: seq<Event>)
    requires ValidRun(s, es, true)
    ensures ValidRun(s, es, false)
  {
    if es != [] {
      StrictIsValid(s, es[..|es| - 1]);
    }
  }
}
