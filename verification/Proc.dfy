// Processes, CPUs, sleep and wakeup of xv6 (proc.c, sleeplock.c) as a state machine.  A step is what
// one process or one scheduler does between two points where others can get in between: taking or
// releasing a spinlock, or handing ptable.lock over through swtch.
module Proc {
  import opened Params

  datatype PState = UNUSED | EMBRYO | SLEEPING | RUNNABLE | RUNNING | ZOMBIE

  // Where a process is in the code.
  datatype Pc =
    | Out                      // anywhere else, holding none of these locks
    | Testing(l: nat)          // acquiresleep: spinlock held, about to look at locked
    | SleepSeen(l: nat)        // going to sleep: spinlock held, about to acquire ptable.lock
    | SleepBoth(l: nat)        //   both held, about to release the spinlock
    | SleepTable(l: nat)       //   ptable.lock held, about to become SLEEPING
    | Asleep(l: nat)           //   in sched(), chan == lk
    | Woken(l: nat)            //   awake, ptable.lock released, about to take the spinlock again
    | RelHave(l: nat)          // releasesleep: spinlock held, locked cleared, about to wake
    | RelTable(l: nat)         //   in wakeup: ptable.lock held too
    | RelDone(l: nat)          //   about to release the spinlock
    | WaitScan                 // wait: ptable.lock held, about to scan the table
    | WaitAsleep               //   in sched(), chan == curproc
    | Forking(np: nat)         // fork: np is allocated, not yet RUNNABLE
    | Yielded(back: Pc)        // in sched(), from yield
    | Forked                   // never run yet: forkret
    | Nowhere                  // no such process, or dead

  datatype Proc = Proc(st: PState, parent: Option<nat>, killed: bool, pc: Pc,
                       on: nat,              // the CPU it runs on
                       maker: Option<nat>)   // who is forking it

  datatype TableLock = Free | ByProc(p: nat) | ByScheduler(c: nat)

  datatype State = State(procs: seq<Proc>, cpus: seq<Option<nat>>, table: TableLock,
                         spin: seq<Option<nat>>,      // the spinlock of each sleeplock: who holds it
                         locked: seq<Option<nat>>,    // each sleeplock: who holds it
                         initproc: nat)

  // ---- invariant ----

  predicate HoldsTable(pc: Pc) { pc.SleepBoth? || pc.SleepTable? || pc.RelTable? || pc.WaitScan? }

  function SpinHeld(pc: Pc): Option<nat> {
    match pc
    case Testing(l) => Some(l)
    case SleepSeen(l) => Some(l)
    case SleepBoth(l) => Some(l)
    case RelHave(l) => Some(l)
    case RelTable(l) => Some(l)
    case RelDone(l) => Some(l)
    case _ => None
  }

  // Timer interrupts can only strike where no spinlock is held.
  predicate Interruptible(pc: Pc) { pc.Out? || pc.Woken? || pc.Forking? }

  function Forks(pc: Pc): Option<nat> {
    match pc
    case Forking(np) => Some(np)
    case Yielded(b) => if b.Forking? then Some(b.np) else None
    case _ => None
  }

  predicate PcFits(st: PState, pc: Pc) {
    match st
    case UNUSED => pc == Nowhere
    case EMBRYO => pc == Nowhere
    case ZOMBIE => pc == Nowhere
    case SLEEPING => pc.Asleep? || pc.WaitAsleep?
    case RUNNABLE => pc.Asleep? || pc.WaitAsleep? || pc.Forked? || (pc.Yielded? && Interruptible(pc.back))
    case RUNNING => !(pc.Asleep? || pc.WaitAsleep? || pc.Forked? || pc.Yielded? || pc.Nowhere?)
  }

  predicate ProcOk(s: State, p: nat)
    requires p < |s.procs|
  {
    var x := s.procs[p];
    && PcFits(x.st, x.pc)
    && (x.st == RUNNING ==> x.on < |s.cpus| && s.cpus[x.on] == Some(p))
    && (x.st == UNUSED || x.st == EMBRYO ==> x.parent == None) && x.parent != Some(p)
    && (HoldsTable(x.pc) <==> s.table == ByProc(p))
    && (SpinHeld(x.pc).Some? ==> SpinHeld(x.pc).value < |s.spin| && s.spin[SpinHeld(x.pc).value] == Some(p))
    && (x.pc.SleepSeen? || x.pc.SleepBoth? ==> x.pc.l < |s.locked| && s.locked[x.pc.l].Some?)
    && (x.pc.RelHave? || x.pc.RelTable? || x.pc.RelDone? ==> x.pc.l < |s.locked| && s.locked[x.pc.l].None?)
    && (Forks(x.pc).Some? ==>
          var np := Forks(x.pc).value; np < |s.procs| && s.procs[np].st == EMBRYO && s.procs[np].maker == Some(p))
    && (x.pc.Woken? || x.pc.Asleep? || x.pc.SleepTable? ==> x.pc.l < |s.spin|)
    && (x.pc.Yielded? && x.pc.back.Woken? ==> x.pc.back.l < |s.spin|)
  }

  predicate CpuOk(s: State, c: nat)
    requires c < |s.cpus|
  {
    s.cpus[c].Some? ==> s.cpus[c].value < |s.procs| && s.procs[s.cpus[c].value].st == RUNNING && s.procs[s.cpus[c].value].on == c
  }

  predicate SpinOk(s: State, l: nat)
    requires l < |s.spin|
  {
    s.spin[l].Some? ==> s.spin[l].value < |s.procs| && SpinHeld(s.procs[s.spin[l].value].pc) == Some(l)
  }

  // On sleeplock l: asleep, or past the point where the spinlock was given up.
  predicate Sleeps(x: Proc, l: nat) {
    (x.st == SLEEPING && x.pc == Asleep(l)) || x.pc == SleepTable(l)
  }

  // The holder of the spinlock is on its way to wake the sleepers.
  predicate WakerUnderWay(s: State, l: nat)
    requires l < |s.spin|
  {
    && s.spin[l].Some? && s.spin[l].value < |s.procs|
    && (s.procs[s.spin[l].value].pc == RelHave(l) || s.procs[s.spin[l].value].pc == RelTable(l))
  }

  ghost predicate LockQuiet(s: State, l: nat)
    requires l < |s.spin| == |s.locked|
  {
    s.locked[l].None? && !WakerUnderWay(s, l) ==> forall p :: 0 <= p < |s.procs| ==> !Sleeps(s.procs[p], l)
  }

  predicate ZombieChild(s: State, p: nat, q: nat)
    requires q < |s.procs|
  {
    s.procs[q].st == ZOMBIE && s.procs[q].parent == Some(p)
  }

  ghost predicate WaitOk(s: State, p: nat)
    requires p < |s.procs|
  {
    s.procs[p].st == SLEEPING && s.procs[p].pc == WaitAsleep ==> forall q :: 0 <= q < |s.procs| ==> !ZombieChild(s, p, q)
  }

  predicate TableOk(s: State) {
    match s.table
    case Free => true
    case ByProc(p) => p < |s.procs| && HoldsTable(s.procs[p].pc)
    case ByScheduler(c) => c < |s.cpus| && s.cpus[c] == None
  }

  // init has no parent and never dies.
  predicate InitOk(s: State) {
    && s.initproc < |s.procs| && s.procs[s.initproc].parent == None
    && s.procs[s.initproc].st != UNUSED && s.procs[s.initproc].st != EMBRYO && s.procs[s.initproc].st != ZOMBIE
  }

  ghost predicate Inv(s: State) {
    && |s.spin| == |s.locked| && InitOk(s) && TableOk(s)
    && (forall p :: 0 <= p < |s.procs| ==> ProcOk(s, p))
    && (forall c :: 0 <= c < |s.cpus| ==> CpuOk(s, c))
    && (forall l :: 0 <= l < |s.spin| ==> SpinOk(s, l))
    && (forall l :: 0 <= l < |s.spin| ==> LockQuiet(s, l))
    && (forall p :: 0 <= p < |s.procs| ==> WaitOk(s, p))
  }

  // ---- what the invariant gives ----

  // If a sleeplock is free and its spinlock too, nobody sleeps on it or is about to.
  lemma NoLostWakeup(s: State, l: nat, p: nat)
    requires Inv(s) && l < |s.spin| && p < |s.procs| && s.spin[l] == None && s.locked[l] == None
    ensures !(s.procs[p].st == SLEEPING && s.procs[p].pc == Asleep(l))
    ensures s.procs[p].pc != SleepSeen(l) && s.procs[p].pc != SleepBoth(l) && s.procs[p].pc != SleepTable(l)
  {
    assert ProcOk(s, p) && LockQuiet(s, l);
  }

  // Nobody sleeps in wait() with a dead child.
  lemma NoZombieForgotten(s: State, p: nat, q: nat)
    requires Inv(s) && p < |s.procs| && q < |s.procs|
    requires s.procs[p].st == SLEEPING && s.procs[p].pc == WaitAsleep
    ensures !(s.procs[q].parent == Some(p) && s.procs[q].st == ZOMBIE)
  {
    assert WaitOk(s, p);
    assert !ZombieChild(s, p, q);
  }

  // No process runs on two CPUs, and a RUNNING one runs on one.
  lemma OneCpu(s: State, c: nat, d: nat)
    requires Inv(s) && c < |s.cpus| && d < |s.cpus| && s.cpus[c].Some? && s.cpus[c] == s.cpus[d]
    ensures c == d && s.cpus[c].value < |s.procs| && s.procs[s.cpus[c].value].st == RUNNING
  {
    assert CpuOk(s, c) && CpuOk(s, d);
  }

  // ---- steps ----

  datatype Step =
    | SchedAcquire(c: nat)
    | SchedRelease(c: nat)
    | SchedPick(c: nat, p: nat)
    | Yield(p: nat)
    | AcquireSpin(p: nat, l: nat)      // acquiresleep, or sleep() taking its lock again
    | TestLocked(p: nat)               // acquiresleep looks at locked
    | SleepTakeTable(p: nat)
    | SleepDropSpin(p: nat)
    | SleepSwitch(p: nat)
    | Release(p: nat, l: nat)          // releasesleep takes the spinlock and clears locked
    | RelTakeTable(p: nat)
    | RelWake(p: nat)
    | RelDrop(p: nat)
    | WaitCall(p: nat)
    | WaitReap(p: nat, q: nat)
    | WaitNone(p: nat)
    | WaitSleep(p: nat)
    | Exit(p: nat)
    | ForkAlloc(p: nat, np: nat)
    | ForkRun(p: nat)
    | ForkFail(p: nat)
    | Kill(p: nat, t: nat)

  predicate Runs(s: State, p: nat) { p < |s.procs| && s.procs[p].st == RUNNING && s.procs[p].on < |s.cpus| }

  predicate HasKids(s: State, p: nat) { exists q :: 0 <= q < |s.procs| && s.procs[q].parent == Some(p) }

  predicate HasZombie(s: State, p: nat) { exists q :: 0 <= q < |s.procs| && ZombieChild(s, p, q) }

  predicate SpinFree(s: State, l: nat) { l < |s.spin| == |s.locked| && s.spin[l] == None }

  predicate Enabled(s: State, a: Step) {
    match a
    case SchedAcquire(c) => s.table.Free? && c < |s.cpus| && s.cpus[c] == None
    case SchedRelease(c) => s.table == ByScheduler(c)
    case SchedPick(c, p) => s.table == ByScheduler(c) && c < |s.cpus| && p < |s.procs| && s.procs[p].st == RUNNABLE
    case Yield(p) => Runs(s, p) && s.table.Free? && Interruptible(s.procs[p].pc)
    case AcquireSpin(p, l) => Runs(s, p) && SpinFree(s, l) && (s.procs[p].pc == Out || s.procs[p].pc == Woken(l))
    case TestLocked(p) => Runs(s, p) && s.procs[p].pc.Testing? && s.procs[p].pc.l < |s.spin| == |s.locked|
    case SleepTakeTable(p) => Runs(s, p) && s.procs[p].pc.SleepSeen? && s.table.Free?
    case SleepDropSpin(p) => Runs(s, p) && s.procs[p].pc.SleepBoth? && s.procs[p].pc.l < |s.spin|
    case SleepSwitch(p) => Runs(s, p) && s.procs[p].pc.SleepTable?
    case Release(p, l) => Runs(s, p) && s.procs[p].pc == Out && SpinFree(s, l) && s.locked[l] == Some(p)
    case RelTakeTable(p) => Runs(s, p) && s.procs[p].pc.RelHave? && s.table.Free?
    case RelWake(p) => Runs(s, p) && s.procs[p].pc.RelTable?
    case RelDrop(p) => Runs(s, p) && s.procs[p].pc.RelDone? && s.procs[p].pc.l < |s.spin|
    case WaitCall(p) => Runs(s, p) && s.procs[p].pc == Out && s.table.Free?
    case WaitReap(p, q) => Runs(s, p) && s.procs[p].pc.WaitScan? && q < |s.procs| && ZombieChild(s, p, q)
    case WaitNone(p) => Runs(s, p) && s.procs[p].pc.WaitScan? && !HasZombie(s, p) && (!HasKids(s, p) || s.procs[p].killed)
    case WaitSleep(p) => Runs(s, p) && s.procs[p].pc.WaitScan? && !HasZombie(s, p) && HasKids(s, p) && !s.procs[p].killed
    case Exit(p) => Runs(s, p) && s.procs[p].pc == Out && s.table.Free? && p != s.initproc
    case ForkAlloc(p, np) => Runs(s, p) && s.procs[p].pc == Out && s.table.Free? && np < |s.procs| && s.procs[np].st == UNUSED
    case ForkRun(p) => Runs(s, p) && s.procs[p].pc.Forking? && s.procs[p].pc.np < |s.procs| && s.table.Free?
    case ForkFail(p) => Runs(s, p) && s.procs[p].pc.Forking? && s.procs[p].pc.np < |s.procs|
    case Kill(p, t) => Runs(s, p) && s.procs[p].pc == Out && s.table.Free? && t < |s.procs|
  }

  function At(s: State, p: nat, pc: Pc): State
    requires p < |s.procs|
  {
    s.(procs := s.procs[p := s.procs[p].(pc := pc)])
  }

  // sched(): the CPU's scheduler goes on with ptable.lock held.
  function Away(s: State, p: nat, st: PState, pc: Pc): State
    requires Runs(s, p)
  {
    s.(procs := s.procs[p := s.procs[p].(st := st, pc := pc)],
       cpus := s.cpus[s.procs[p].on := None], table := ByScheduler(s.procs[p].on))
  }

  // The scheduler's swtch: p goes on where it left off in sched(), and gives ptable.lock up unless it
  // is in wait.
  function Resume(s: State, c: nat, p: nat): State
    requires c < |s.cpus| && p < |s.procs|
  {
    var pc := match s.procs[p].pc
      case Yielded(back) => back
      case Asleep(l) => Woken(l)
      case WaitAsleep => WaitScan
      case _ => Out;
    s.(procs := s.procs[p := s.procs[p].(st := RUNNING, on := c, pc := pc)], cpus := s.cpus[c := Some(p)],
       table := if pc == WaitScan then ByProc(p) else Free)
  }

  predicate OnLock(x: Proc, l: nat) { x.st == SLEEPING && x.pc == Asleep(l) }

  // wakeup1(lk)
  function WakeLock(procs: seq<Proc>, l: nat): (r: seq<Proc>)
    ensures |r| == |procs|
    ensures forall i :: 0 <= i < |procs| ==> r[i] == if OnLock(procs[i], l) then procs[i].(st := RUNNABLE) else procs[i]
  {
    if procs == [] then []
    else
      var x := procs[|procs| - 1];
      WakeLock(procs[..|procs| - 1], l) + [if OnLock(x, l) then x.(st := RUNNABLE) else x]
  }

  // wakeup1(p), for a process that may be in wait
  function WakeWait(procs: seq<Proc>, p: nat): (r: seq<Proc>)
    ensures |r| == |procs|
    ensures forall i :: 0 <= i < |procs| ==>
              r[i] == if i == p && procs[i].st == SLEEPING && procs[i].pc == WaitAsleep then procs[i].(st := RUNNABLE) else procs[i]
  {
    if p < |procs| && procs[p].st == SLEEPING && procs[p].pc == WaitAsleep then procs[p := procs[p].(st := RUNNABLE)] else procs
  }

  // exit: children of p go to init
  function Reparent(procs: seq<Proc>, p: nat, init: nat): (r: seq<Proc>)
    ensures |r| == |procs|
    ensures forall i :: 0 <= i < |procs| ==> r[i] == if procs[i].parent == Some(p) then procs[i].(parent := Some(init)) else procs[i]
  {
    if procs == [] then []
    else
      var x := procs[|procs| - 1];
      Reparent(procs[..|procs| - 1], p, init) + [if x.parent == Some(p) then x.(parent := Some(init)) else x]
  }

  function ExitProcs(s: State, p: nat): seq<Proc>
    requires p < |s.procs|
  {
    var a := if s.procs[p].parent.Some? then WakeWait(s.procs, s.procs[p].parent.value) else s.procs;
    var b := Reparent(a, p, s.initproc);
    if HasZombie(s, p) then WakeWait(b, s.initproc) else b
  }

  const UNUSEDPROC: Proc := Proc(UNUSED, None, false, Nowhere, 0, None)

  function Next(s: State, a: Step): State
    requires Enabled(s, a)
  {
    match a
    case SchedAcquire(c) => s.(table := ByScheduler(c))
    case SchedRelease(c) => s.(table := Free)
    case SchedPick(c, p) => Resume(s, c, p)
    case Yield(p) => Away(s, p, RUNNABLE, Yielded(s.procs[p].pc))
    case AcquireSpin(p, l) => At(s, p, Testing(l)).(spin := s.spin[l := Some(p)])
    case TestLocked(p) =>
      var l := s.procs[p].pc.l;
      if s.locked[l].Some? then At(s, p, SleepSeen(l))
      else At(s, p, Out).(locked := s.locked[l := Some(p)], spin := s.spin[l := None])
    case SleepTakeTable(p) => At(s, p, SleepBoth(s.procs[p].pc.l)).(table := ByProc(p))
    case SleepDropSpin(p) => At(s, p, SleepTable(s.procs[p].pc.l)).(spin := s.spin[s.procs[p].pc.l := None])
    case SleepSwitch(p) => Away(s, p, SLEEPING, Asleep(s.procs[p].pc.l))
    case Release(p, l) => At(s, p, RelHave(l)).(spin := s.spin[l := Some(p)], locked := s.locked[l := None])
    case RelTakeTable(p) => At(s, p, RelTable(s.procs[p].pc.l)).(table := ByProc(p))
    case RelWake(p) => At(s.(procs := WakeLock(s.procs, s.procs[p].pc.l)), p, RelDone(s.procs[p].pc.l)).(table := Free)
    case RelDrop(p) => At(s, p, Out).(spin := s.spin[s.procs[p].pc.l := None])
    case WaitCall(p) => At(s, p, WaitScan).(table := ByProc(p))
    case WaitReap(p, q) => At(s.(procs := s.procs[q := UNUSEDPROC]), p, Out).(table := Free)
    case WaitNone(p) => At(s, p, Out).(table := Free)
    case WaitSleep(p) => Away(s, p, SLEEPING, WaitAsleep)
    case Exit(p) =>
      var x := ExitProcs(s, p);
      s.(procs := x[p := x[p].(st := ZOMBIE, pc := Nowhere)], cpus := s.cpus[s.procs[p].on := None],
         table := ByScheduler(s.procs[p].on))
    case ForkAlloc(p, np) =>
      At(s.(procs := s.procs[np := s.procs[np].(st := EMBRYO, maker := Some(p))]), p, Forking(np))
    case ForkRun(p) =>
      var np := s.procs[p].pc.np;
      At(s.(procs := s.procs[np := s.procs[np].(st := RUNNABLE, parent := Some(p), pc := Forked)]), p, Out)
    case ForkFail(p) =>
      var np := s.procs[p].pc.np;
      At(s.(procs := s.procs[np := s.procs[np].(st := UNUSED)]), p, Out)
    case Kill(p, t) =>
      var x := s.procs[t];
      s.(procs := s.procs[t := x.(killed := true, st := if x.st == SLEEPING then RUNNABLE else x.st)])
  }

  // ---- every step keeps the invariant ----

  predicate Waits(x: Proc) { x.st == SLEEPING && x.pc == WaitAsleep }

  // No new sleeper in wait, no new zombie.
  ghost predicate NoNewWait(s: State, t: State) {
    && |t.procs| == |s.procs|
    && forall q :: 0 <= q < |s.procs| ==>
         && (Waits(t.procs[q]) ==> Waits(s.procs[q]))
         && (t.procs[q].st == ZOMBIE ==> s.procs[q].st == ZOMBIE && s.procs[q].parent == t.procs[q].parent)
  }

  lemma WaitFrame(s: State, t: State)
    requires NoNewWait(s, t) && forall q :: 0 <= q < |s.procs| ==> WaitOk(s, q)
    ensures forall q :: 0 <= q < |t.procs| ==> WaitOk(t, q)
  {
    forall q | 0 <= q < |t.procs| ensures WaitOk(t, q) {
      assert WaitOk(s, q);
      forall z | 0 <= z < |t.procs| && Waits(t.procs[q]) ensures !ZombieChild(t, q, z) {
        assert !ZombieChild(s, q, z);
      }
    }
  }

  // No new sleeper on a sleeplock; a lock that is free now was free, and its waker is still under way.
  ghost predicate NoNewSleep(s: State, t: State) {
    && |t.procs| == |s.procs| && |t.spin| == |t.locked| == |s.spin| == |s.locked|
    && (forall q, l :: 0 <= q < |s.procs| && Sleeps(t.procs[q], l) ==> Sleeps(s.procs[q], l))
    && (forall l :: 0 <= l < |s.spin| && t.locked[l].None? && !WakerUnderWay(t, l) ==> s.locked[l].None? && !WakerUnderWay(s, l))
  }

  lemma QuietFrame(s: State, t: State)
    requires NoNewSleep(s, t) && forall l :: 0 <= l < |s.spin| ==> LockQuiet(s, l)
    ensures forall l :: 0 <= l < |t.spin| ==> LockQuiet(t, l)
  {
    forall l | 0 <= l < |t.spin| ensures LockQuiet(t, l) {
      assert LockQuiet(s, l);
    }
  }

  ghost predicate OkBut(s: State) {
    && |s.spin| == |s.locked| && InitOk(s) && TableOk(s)
    && (forall p :: 0 <= p < |s.procs| ==> ProcOk(s, p))
    && (forall c :: 0 <= c < |s.cpus| ==> CpuOk(s, c))
    && (forall l :: 0 <= l < |s.spin| ==> SpinOk(s, l))
  }

  // Process p went on in the code.  It may have taken or given up ptable.lock and spinlocks, and changed
  // locked under a spinlock that is its own; nothing else is different.
  predicate Local(s: State, t: State, p: nat) {
    && p < |s.procs| == |t.procs| && t.procs == s.procs[p := s.procs[p].(pc := t.procs[p].pc)]
    && t.cpus == s.cpus && t.initproc == s.initproc && |t.spin| == |s.spin| == |s.locked| == |t.locked|
    && (t.table == s.table || (s.table in {Free, ByProc(p)} && t.table in {Free, ByProc(p)}))
    && (forall l :: 0 <= l < |s.spin| ==>
          t.spin[l] == s.spin[l] || (s.spin[l] in {None, Some(p)} && t.spin[l] in {None, Some(p)}))
    && (forall l :: 0 <= l < |s.spin| ==> t.locked[l] == s.locked[l] || s.spin[l] in {None, Some(p)})
  }

  lemma LocalOk(s: State, t: State, p: nat)
    requires OkBut(s) && Local(s, t, p) && s.procs[p].st == RUNNING && ProcOk(t, p) && TableOk(t)
    requires forall l :: 0 <= l < |t.spin| && t.spin[l] == Some(p) ==> SpinOk(t, l)
    requires Forks(t.procs[p].pc).Some? ==> Forks(t.procs[p].pc) == Forks(s.procs[p].pc)
    ensures OkBut(t)
  {
    forall q | 0 <= q < |t.procs| ensures ProcOk(t, q) {
      assert ProcOk(s, q);
    }
    forall c | 0 <= c < |t.cpus| ensures CpuOk(t, c) {
      assert CpuOk(s, c);
    }
    forall l | 0 <= l < |t.spin| ensures SpinOk(t, l) {
      assert SpinOk(s, l);
    }
  }

  lemma Facts(s: State, p: nat)
    requires Inv(s)
    ensures OkBut(s) && InitOk(s) && TableOk(s) && |s.spin| == |s.locked|
    ensures p < |s.procs| ==> ProcOk(s, p)
  {
  }

  lemma SpinsOf(s: State, t: State, p: nat)
    requires OkBut(s) && Local(s, t, p)
    ensures forall l :: 0 <= l < |t.spin| && s.spin[l] == Some(p) ==> SpinHeld(s.procs[p].pc) == Some(l)
  {
    forall l | 0 <= l < |t.spin| && s.spin[l] == Some(p) ensures SpinHeld(s.procs[p].pc) == Some(l) {
      assert SpinOk(s, l);
    }
  }

  // Steps in which a running process takes or gives up one lock, or looks at locked.
  predicate OneLock(a: Step) {
    || a.SleepTakeTable? || a.RelTakeTable? || a.WaitCall? || a.WaitNone? || a.AcquireSpin? || a.Release? || a.TestLocked?
    || a.SleepDropSpin? || a.RelDrop?
  }

  lemma LocalStep(s: State, a: Step)
    requires Enabled(s, a) && OneLock(a) && ProcOk(s, a.p) && |s.spin| == |s.locked|
    ensures Local(s, Next(s, a), a.p) && Forks(Next(s, a).procs[a.p].pc) == None
  {
    hide HasZombie, HasKids;
  }

  lemma LocalSelf(s: State, a: Step)
    requires Enabled(s, a) && OneLock(a) && ProcOk(s, a.p) && |s.spin| == |s.locked|
    ensures ProcOk(Next(s, a), a.p)
  {
    hide HasZombie, HasKids;
  }

  lemma LocalTable(s: State, a: Step)
    requires Enabled(s, a) && OneLock(a) && ProcOk(s, a.p) && TableOk(s)
    ensures TableOk(Next(s, a))
  {
    hide HasZombie, HasKids;
  }

  // The spinlocks that are its own afterwards are those that it should hold there.
  lemma LocalSpins(s: State, a: Step)
    requires Enabled(s, a) && OneLock(a) && ProcOk(s, a.p) && |s.spin| == |s.locked|
    requires forall l :: 0 <= l < |s.spin| && s.spin[l] == Some(a.p) ==> SpinHeld(s.procs[a.p].pc) == Some(l)
    ensures var t := Next(s, a); |t.spin| == |s.spin| && forall l :: 0 <= l < |t.spin| && t.spin[l] == Some(a.p) ==> SpinOk(t, l)
  {
    hide HasZombie, HasKids;
  }

  lemma KeepsLocal(s: State, a: Step)
    requires Inv(s) && Enabled(s, a) && OneLock(a)
    ensures OkBut(Next(s, a))
  {
    Facts(s, a.p);
    hide Inv, OkBut, ProcOk, TableOk, InitOk, SpinOk, Next, Forks;
    LocalStep(s, a);
    LocalSelf(s, a);
    LocalTable(s, a);
    SpinsOf(s, Next(s, a), a.p);
    LocalSpins(s, a);
    LocalOk(s, Next(s, a), a.p);
  }

  // Every process by itself, every CPU and every spinlock.
  lemma Pointwise(s: State, t: State)
    requires OkBut(s) && |t.spin| == |t.locked| && InitOk(t) && TableOk(t)
    requires |t.procs| == |s.procs| && |t.cpus| == |s.cpus| && |t.spin| == |s.spin|
    requires forall q :: 0 <= q < |s.procs| && ProcOk(s, q) ==> ProcOk(t, q)
    requires forall c :: 0 <= c < |s.cpus| && CpuOk(s, c) ==> CpuOk(t, c)
    requires forall l :: 0 <= l < |s.spin| && SpinOk(s, l) ==> SpinOk(t, l)
    ensures OkBut(t)
  {
  }

  lemma KeepsTakeOrGive(s: State, a: Step)
    requires Inv(s) && Enabled(s, a) && (a.SchedAcquire? || a.SchedRelease?)
    ensures OkBut(Next(s, a))
  {
    Facts(s, 0);
    hide Inv, OkBut, HasZombie, HasKids;
    Pointwise(s, Next(s, a));
  }

  lemma KeepsPick(s: State, a: Step)
    requires Inv(s) && Enabled(s, a) && a.SchedPick?
    ensures OkBut(Next(s, a))
  {
    Facts(s, a.p);
    hide Inv, OkBut, HasZombie, HasKids;
    Pointwise(s, Next(s, a));
  }

  lemma KeepsYield(s: State, a: Step)
    requires Inv(s) && Enabled(s, a) && a.Yield?
    ensures OkBut(Next(s, a))
  {
    Facts(s, a.p);
    hide Inv, OkBut, HasZombie, HasKids;
    Pointwise(s, Next(s, a));
  }

  lemma KeepsSleep(s: State, a: Step)
    requires Inv(s) && Enabled(s, a) && (a.SleepSwitch? || a.WaitSleep?)
    ensures OkBut(Next(s, a))
  {
    Facts(s, a.p);
    hide Inv, OkBut, HasZombie, HasKids;
    Pointwise(s, Next(s, a));
  }

  lemma KeepsReap(s: State, a: Step)
    requires Inv(s) && Enabled(s, a) && a.WaitReap?
    ensures OkBut(Next(s, a))
  {
    Facts(s, a.p);
    Facts(s, a.q);
    hide Inv, OkBut, HasZombie, HasKids;
    Pointwise(s, Next(s, a));
  }

  lemma KeepsKill(s: State, a: Step)
    requires Inv(s) && Enabled(s, a) && a.Kill?
    ensures OkBut(Next(s, a))
  {
    Facts(s, a.p);
    Facts(s, a.t);
    hide Inv, OkBut, HasZombie, HasKids;
    Pointwise(s, Next(s, a));
  }

  lemma KeepsForkAlloc(s: State, a: Step)
    requires Inv(s) && Enabled(s, a) && a.ForkAlloc?
    ensures OkBut(Next(s, a))
  {
    Facts(s, a.p);
    Facts(s, a.np);
    hide Inv, OkBut, HasZombie, HasKids;
    Pointwise(s, Next(s, a));
  }

  // fork lets the child run, or gives its place up: the parent, the child, and the others.
  lemma ForkParent(s: State, a: Step)
    requires Enabled(s, a) && (a.ForkRun? || a.ForkFail?) && ProcOk(s, a.p)
    ensures a.p < |Next(s, a).procs| && ProcOk(Next(s, a), a.p)
  {
    assert Next(s, a).procs[a.p] == s.procs[a.p].(pc := Out);
  }

  lemma ForkChild(s: State, a: Step)
    requires Enabled(s, a) && (a.ForkRun? || a.ForkFail?) && ProcOk(s, a.p) && ProcOk(s, s.procs[a.p].pc.np)
    ensures s.procs[a.p].pc.np < |Next(s, a).procs| && ProcOk(Next(s, a), s.procs[a.p].pc.np)
  {
    assert s.procs[s.procs[a.p].pc.np].st == EMBRYO;
  }

  lemma ForkOther(s: State, a: Step, q: nat)
    requires Enabled(s, a) && (a.ForkRun? || a.ForkFail?) && q < |s.procs| && ProcOk(s, q) && ProcOk(s, a.p)
    requires q != a.p && q != s.procs[a.p].pc.np
    ensures q < |Next(s, a).procs| && ProcOk(Next(s, a), q)
  {
    var t := Next(s, a);
    assert t.procs[q] == s.procs[q];
    var f := Forks(s.procs[q].pc);
    if f.Some? {
      assert f.value != s.procs[a.p].pc.np && f.value != a.p;
      assert t.procs[f.value] == s.procs[f.value];
    }
  }

  lemma ForkProc(s: State, a: Step, q: nat)
    requires Enabled(s, a) && (a.ForkRun? || a.ForkFail?) && q < |s.procs| && ProcOk(s, q) && ProcOk(s, a.p)
    requires ProcOk(s, s.procs[a.p].pc.np)
    ensures q < |Next(s, a).procs| && ProcOk(Next(s, a), q)
  {
    hide ProcOk, Next;
    if q == a.p {
      ForkParent(s, a);
    } else if q == s.procs[a.p].pc.np {
      ForkChild(s, a);
    } else {
      ForkOther(s, a, q);
    }
  }

  lemma ForkRest(s: State, a: Step)
    requires Enabled(s, a) && (a.ForkRun? || a.ForkFail?) && ProcOk(s, a.p) && ProcOk(s, s.procs[a.p].pc.np)
    requires InitOk(s) && TableOk(s) && |s.spin| == |s.locked|
    ensures var t := Next(s, a);
      && |t.spin| == |t.locked| && InitOk(t) && TableOk(t)
      && |t.procs| == |s.procs| && |t.cpus| == |s.cpus| && |t.spin| == |s.spin|
      && (forall c :: 0 <= c < |s.cpus| && CpuOk(s, c) ==> CpuOk(t, c))
      && (forall l :: 0 <= l < |s.spin| && SpinOk(s, l) ==> SpinOk(t, l))
  {
  }

  lemma KeepsFork(s: State, a: Step)
    requires Inv(s) && Enabled(s, a) && (a.ForkRun? || a.ForkFail?)
    ensures OkBut(Next(s, a))
  {
    Facts(s, a.p);
    Facts(s, s.procs[a.p].pc.np);
    ForkRest(s, a);
    var t := Next(s, a);
    hide Inv, OkBut, ProcOk, CpuOk, SpinOk, InitOk, TableOk, Next;
    forall q | 0 <= q < |s.procs| && ProcOk(s, q) ensures ProcOk(t, q) {
      ForkProc(s, a, q);
    }
    Pointwise(s, t);
  }

  lemma RelWakeProc(s: State, a: Step, q: nat)
    requires Inv(s) && Enabled(s, a) && a.RelWake? && q < |s.procs|
    ensures ProcOk(Next(s, a), q)
  {
    assert ProcOk(s, a.p) && ProcOk(s, q);
    assert Forks(s.procs[q].pc).Some? ==> ProcOk(s, Forks(s.procs[q].pc).value);
    hide Inv;
  }

  lemma KeepsRelWake(s: State, a: Step)
    requires Inv(s) && Enabled(s, a) && a.RelWake?
    ensures OkBut(Next(s, a))
  {
    var t := Next(s, a);
    assert ProcOk(s, a.p);
    hide LockQuiet, WaitOk;
    forall q | 0 <= q < |t.procs| ensures ProcOk(t, q) {
      RelWakeProc(s, a, q);
    }
    hide ProcOk;
    forall c | 0 <= c < |t.cpus| ensures CpuOk(t, c) {
      assert CpuOk(s, c);
    }
    forall l | 0 <= l < |t.spin| ensures SpinOk(t, l) {
      assert SpinOk(s, l);
    }
  }

  // exit changes other processes only in their parent, and wakes some that sleep in wait.
  lemma ExitShape(s: State, p: nat)
    requires p < |s.procs|
    ensures var r := ExitProcs(s, p);
      && |r| == |s.procs|
      && forall i :: 0 <= i < |r| ==>
           && r[i] == s.procs[i].(st := r[i].st, parent := r[i].parent)
           && (r[i].st == s.procs[i].st || (Waits(s.procs[i]) && r[i].st == RUNNABLE))
           && r[i].parent == (if s.procs[i].parent == Some(p) then Some(s.initproc) else s.procs[i].parent)
           && (Waits(r[i]) ==> s.procs[p].parent != Some(i) && (HasZombie(s, p) ==> i != s.initproc))
  {
    hide HasZombie;
  }

  lemma ExitShapeAt(s: State, p: nat, i: nat)
    requires p < |s.procs| && i < |s.procs|
    ensures var r := ExitProcs(s, p);
      && |r| == |s.procs|
      && r[i] == s.procs[i].(st := r[i].st, parent := r[i].parent)
      && (r[i].st == s.procs[i].st || (Waits(s.procs[i]) && r[i].st == RUNNABLE))
      && r[i].parent == (if s.procs[i].parent == Some(p) then Some(s.initproc) else s.procs[i].parent)
  {
    ExitShape(s, p);
  }

  // A process other than the exiting one: at most woken up and given another parent.
  lemma BystanderOk(s: State, t: State, p: nat, q: nat)
    requires q < |s.procs| && p < |s.procs| && q != p && ProcOk(s, q) && ProcOk(s, p) && s.procs[p].st == RUNNING
    requires |t.procs| == |s.procs| && t.spin == s.spin && t.locked == s.locked
    requires s.table.Free? && t.table.ByScheduler? && |t.cpus| == |s.cpus|
    requires forall c :: 0 <= c < |s.cpus| && c != s.procs[p].on ==> t.cpus[c] == s.cpus[c]
    requires var x, y := s.procs[q], t.procs[q];
      && y.pc == x.pc && y.on == x.on && (y.st == x.st || (Waits(x) && y.st == RUNNABLE))
      && (x.parent == None ==> y.parent == None) && y.parent != Some(q)
    requires Forks(s.procs[q].pc).Some? && Forks(s.procs[q].pc).value < |s.procs| ==>
               var z, w := s.procs[Forks(s.procs[q].pc).value], t.procs[Forks(s.procs[q].pc).value];
               z.st == EMBRYO ==> w.st == EMBRYO && w.maker == z.maker
    ensures ProcOk(t, q)
  {
  }

  lemma ExitSelf(s: State, a: Step)
    requires Inv(s) && Enabled(s, a) && a.Exit?
    ensures ProcOk(Next(s, a), a.p)
  {
    assert ProcOk(s, a.p);
    hide Inv;
    ExitShapeAt(s, a.p, a.p);
    hide ExitProcs, HasZombie;
  }

  lemma ExitBystander(s: State, a: Step, q: nat)
    requires Inv(s) && Enabled(s, a) && a.Exit? && q < |s.procs| && q != a.p
    ensures ProcOk(Next(s, a), q)
  {
    var t := Next(s, a);
    var p := a.p;
    assert ProcOk(s, q) && ProcOk(s, p) && InitOk(s);
    var np := Forks(s.procs[q].pc);
    if np.Some? {
      assert ProcOk(s, np.value);
      ExitShapeAt(s, p, np.value);
    }
    ExitShapeAt(s, p, q);
    hide Inv, ExitProcs, HasZombie, ProcOk;
    ExitOther(s, p, q);
    BystanderOk(s, t, p, q);
  }

  lemma ExitProc(s: State, a: Step, q: nat)
    requires Inv(s) && Enabled(s, a) && a.Exit? && q < |s.procs|
    ensures ProcOk(Next(s, a), q)
  {
    hide Inv, Next, ProcOk;
    if q == a.p {
      ExitSelf(s, a);
    } else {
      ExitBystander(s, a, q);
    }
  }

  // init's parent stays nobody.
  lemma ExitOther(s: State, p: nat, q: nat)
    requires InitOk(s) && q < |s.procs| && p < |s.procs| && ProcOk(s, q)
    ensures s.procs[q].parent == Some(p) ==> q != s.initproc
    ensures s.procs[q].parent != Some(q)
    ensures var np := Forks(s.procs[q].pc); np.Some? ==> np.value < |s.procs| && s.procs[np.value].st == EMBRYO
  {
  }

  lemma KeepsExit(s: State, a: Step)
    requires Inv(s) && Enabled(s, a) && a.Exit?
    ensures OkBut(Next(s, a))
  {
    var t := Next(s, a);
    assert ProcOk(s, a.p);
    ExitShape(s, a.p);
    forall q | 0 <= q < |t.procs| ensures ProcOk(t, q) {
      ExitProc(s, a, q);
    }
    hide LockQuiet, WaitOk, ExitProcs, HasZombie, ProcOk;
    forall c | 0 <= c < |t.cpus| ensures CpuOk(t, c) {
      assert CpuOk(s, c);
    }
    forall l | 0 <= l < |t.spin| ensures SpinOk(t, l) {
      assert SpinOk(s, l);
    }
  }

  // ---- sleepers on sleeplocks ----

  predicate OnSleeplock(a: Step) {
    a.AcquireSpin? || a.TestLocked? || a.SleepTakeTable? || a.SleepSwitch? || a.Release? || a.RelTakeTable? || a.RelDrop?
  }

  lemma QuietLock(s: State, a: Step)
    requires Inv(s) && Enabled(s, a) && OnSleeplock(a)
    ensures forall l :: 0 <= l < |Next(s, a).spin| ==> LockQuiet(Next(s, a), l)
  {
    var t := Next(s, a);
    hide WaitOk, LockQuiet;
    assert ProcOk(s, a.p);
    forall l | 0 <= l < |s.spin| && t.locked[l].None? && !WakerUnderWay(t, l) ensures s.locked[l].None? && !WakerUnderWay(s, l) {
      assert SpinOk(s, l);
    }
    QuietFrame(s, t);
  }

  // Steps that have nothing to do with sleeplocks.
  lemma QuietSched(s: State, a: Step)
    requires Inv(s) && Enabled(s, a) && (a.SchedAcquire? || a.SchedRelease? || a.SchedPick? || a.Yield? || a.Kill?)
    ensures forall l :: 0 <= l < |Next(s, a).spin| ==> LockQuiet(Next(s, a), l)
  {
    var t := Next(s, a);
    if a.SchedPick? { assert ProcOk(s, a.p); }
    hide WaitOk, LockQuiet, ExitProcs, HasZombie, HasKids;
    forall l | 0 <= l < |s.spin| ensures WakerUnderWay(t, l) == WakerUnderWay(s, l) {
      if s.spin[l].Some? { assert SpinOk(s, l) && ProcOk(s, s.spin[l].value); }
    }
    QuietFrame(s, t);
  }

  lemma QuietWait(s: State, a: Step)
    requires Inv(s) && Enabled(s, a) && (a.WaitCall? || a.WaitReap? || a.WaitNone? || a.WaitSleep?)
    ensures forall l :: 0 <= l < |Next(s, a).spin| ==> LockQuiet(Next(s, a), l)
  {
    var t := Next(s, a);
    hide WaitOk, LockQuiet, ExitProcs, HasZombie, HasKids;
    forall l | 0 <= l < |s.spin| ensures WakerUnderWay(t, l) == WakerUnderWay(s, l) {
      if s.spin[l].Some? { assert SpinOk(s, l) && ProcOk(s, s.spin[l].value); }
    }
    QuietFrame(s, t);
  }

  lemma QuietFork(s: State, a: Step)
    requires Inv(s) && Enabled(s, a) && (a.ForkAlloc? || a.ForkRun? || a.ForkFail?)
    ensures forall l :: 0 <= l < |Next(s, a).spin| ==> LockQuiet(Next(s, a), l)
  {
    var t := Next(s, a);
    assert ProcOk(s, a.p);
    hide WaitOk, LockQuiet, ExitProcs, HasZombie, HasKids;
    forall l | 0 <= l < |s.spin| ensures WakerUnderWay(t, l) == WakerUnderWay(s, l) {
      if s.spin[l].Some? { assert SpinOk(s, l) && ProcOk(s, s.spin[l].value); }
    }
    QuietFrame(s, t);
  }

  lemma QuietExit(s: State, a: Step)
    requires Inv(s) && Enabled(s, a) && (a.Exit?)
    ensures forall l :: 0 <= l < |Next(s, a).spin| ==> LockQuiet(Next(s, a), l)
  {
    var t := Next(s, a);
    ExitShape(s, a.p);
    hide WaitOk, LockQuiet, ExitProcs, HasZombie, HasKids;
    forall l | 0 <= l < |s.spin| ensures WakerUnderWay(t, l) == WakerUnderWay(s, l) {
      if s.spin[l].Some? { assert SpinOk(s, l) && ProcOk(s, s.spin[l].value); }
    }
    QuietFrame(s, t);
  }

  lemma QuietDrop(s: State, a: Step)
    requires Inv(s) && Enabled(s, a) && a.SleepDropSpin?
    ensures forall l :: 0 <= l < |Next(s, a).spin| ==> LockQuiet(Next(s, a), l)
  {
    var t := Next(s, a);
    assert ProcOk(s, a.p);
    forall l | 0 <= l < |t.spin| ensures LockQuiet(t, l) {
      assert LockQuiet(s, l) && SpinOk(s, l);
    }
  }

  lemma QuietWake(s: State, a: Step)
    requires Inv(s) && Enabled(s, a) && a.RelWake?
    ensures forall l :: 0 <= l < |Next(s, a).spin| ==> LockQuiet(Next(s, a), l)
  {
    var t := Next(s, a);
    assert ProcOk(s, a.p);
    forall l | 0 <= l < |t.spin| ensures LockQuiet(t, l) {
      assert LockQuiet(s, l) && SpinOk(s, l);
      forall q | 0 <= q < |t.procs| ensures Sleeps(t.procs[q], l) ==> Sleeps(s.procs[q], l) && l != s.procs[a.p].pc.l {
        assert ProcOk(s, q);
      }
    }
  }

  // ---- parents in wait ----

  lemma WaitStepAt(s: State, a: Step, q: nat)
    requires Enabled(s, a) && !a.Exit? && !a.WaitSleep? && q < |s.procs| && ProcOk(s, q)
    ensures |Next(s, a).procs| == |s.procs|
    ensures var x, y := s.procs[q], Next(s, a).procs[q];
      (Waits(y) ==> Waits(x)) && (y.st == ZOMBIE ==> x.st == ZOMBIE && x.parent == y.parent)
  {
    hide HasZombie, HasKids;
  }

  lemma WaitStep(s: State, a: Step)
    requires Inv(s) && Enabled(s, a) && !a.Exit? && !a.WaitSleep?
    ensures forall q :: 0 <= q < |Next(s, a).procs| ==> WaitOk(Next(s, a), q)
  {
    var t := Next(s, a);
    if |s.procs| > 0 { WaitStepAt(s, a, 0); }
    hide LockQuiet, WaitOk, SpinOk, CpuOk, ProcOk, Enabled, Next;
    forall q | 0 <= q < |s.procs|
      ensures (Waits(t.procs[q]) ==> Waits(s.procs[q]))
              && (t.procs[q].st == ZOMBIE ==> s.procs[q].st == ZOMBIE && s.procs[q].parent == t.procs[q].parent)
    {
      assert ProcOk(s, q);
      WaitStepAt(s, a, q);
    }
    WaitFrame(s, t);
  }

  // A process goes to sleep in wait only when it has no dead child.
  lemma WaitSleeps(s: State, a: Step)
    requires Inv(s) && Enabled(s, a) && a.WaitSleep?
    ensures forall q :: 0 <= q < |Next(s, a).procs| ==> WaitOk(Next(s, a), q)
  {
    var t := Next(s, a);
    hide LockQuiet;
    forall q | 0 <= q < |t.procs| ensures WaitOk(t, q) {
      assert WaitOk(s, q);
      forall z | 0 <= z < |t.procs| && Waits(t.procs[q]) ensures !ZombieChild(t, q, z) {
        assert ZombieChild(t, q, z) ==> ZombieChild(s, q, z);
      }
    }
  }

  // exit wakes the parent, and init if it inherits a dead child.
  lemma WaitExit(s: State, a: Step)
    requires Inv(s) && Enabled(s, a) && a.Exit?
    ensures forall q :: 0 <= q < |Next(s, a).procs| ==> WaitOk(Next(s, a), q)
  {
    var t := Next(s, a);
    ExitShape(s, a.p);
    assert ProcOk(s, a.p);
    forall z | 0 <= z < |s.procs| && ZombieChild(s, a.p, z) ensures HasZombie(s, a.p) {
    }
    hide LockQuiet, ExitProcs, HasZombie, ProcOk, CpuOk, SpinOk;
    forall q | 0 <= q < |t.procs| ensures WaitOk(t, q) {
      assert WaitOk(s, q);
      if Waits(t.procs[q]) {
        assert Waits(s.procs[q]) && s.procs[a.p].parent != Some(q) && (HasZombie(s, a.p) ==> q != s.initproc);
        forall z | 0 <= z < |t.procs| ensures !ZombieChild(t, q, z) {
          assert !ZombieChild(s, q, z) && (ZombieChild(s, a.p, z) ==> HasZombie(s, a.p));
        }
      }
    }
  }

  // ---- runs ----

  lemma StepOk(s: State, a: Step)
    requires Inv(s) && Enabled(s, a)
    ensures OkBut(Next(s, a))
  {
    hide Inv, Enabled, Next, OkBut;
    match a
    case SchedAcquire(_) => KeepsTakeOrGive(s, a);
    case SchedRelease(_) => KeepsTakeOrGive(s, a);
    case SchedPick(_, _) => KeepsPick(s, a);
    case Yield(_) => KeepsYield(s, a);
    case SleepSwitch(_) => KeepsSleep(s, a);
    case WaitSleep(_) => KeepsSleep(s, a);
    case RelWake(_) => KeepsRelWake(s, a);
    case Exit(_) => KeepsExit(s, a);
    case WaitReap(_, _) => KeepsReap(s, a);
    case ForkAlloc(_, _) => KeepsForkAlloc(s, a);
    case ForkRun(_) => KeepsFork(s, a);
    case ForkFail(_) => KeepsFork(s, a);
    case Kill(_, _) => KeepsKill(s, a);
    case _ => KeepsLocal(s, a);
  }

  lemma StepQuiet(s: State, a: Step)
    requires Inv(s) && Enabled(s, a)
    ensures forall l :: 0 <= l < |Next(s, a).spin| ==> LockQuiet(Next(s, a), l)
  {
    hide Inv, Enabled, Next, LockQuiet;
    match a
    case SchedAcquire(_) => QuietSched(s, a);
    case SchedRelease(_) => QuietSched(s, a);
    case SchedPick(_, _) => QuietSched(s, a);
    case Yield(_) => QuietSched(s, a);
    case Kill(_, _) => QuietSched(s, a);
    case WaitCall(_) => QuietWait(s, a);
    case WaitReap(_, _) => QuietWait(s, a);
    case WaitNone(_) => QuietWait(s, a);
    case WaitSleep(_) => QuietWait(s, a);
    case ForkAlloc(_, _) => QuietFork(s, a);
    case ForkRun(_) => QuietFork(s, a);
    case ForkFail(_) => QuietFork(s, a);
    case Exit(_) => QuietExit(s, a);
    case SleepDropSpin(_) => QuietDrop(s, a);
    case RelWake(_) => QuietWake(s, a);
    case _ => QuietLock(s, a);
  }

  lemma StepWaits(s: State, a: Step)
    requires Inv(s) && Enabled(s, a)
    ensures forall q :: 0 <= q < |Next(s, a).procs| ==> WaitOk(Next(s, a), q)
  {
    hide Inv, Enabled, Next, WaitOk;
    if a.Exit? {
      WaitExit(s, a);
    } else if a.WaitSleep? {
      WaitSleeps(s, a);
    } else {
      WaitStep(s, a);
    }
  }

  lemma StepKeeps(s: State, a: Step)
    requires Inv(s) && Enabled(s, a)
    ensures Inv(Next(s, a))
  {
    StepOk(s, a);
    StepQuiet(s, a);
    StepWaits(s, a);
    hide Enabled, Next, LockQuiet, WaitOk, ProcOk, CpuOk, SpinOk, TableOk, InitOk;
  }

  // ---- the life of a process ----

  // How a process may change its state, and by which step.
  predicate Lives(s: State, a: Step, t: State, p: nat)
    requires p < |s.procs| == |t.procs|
  {
    var x, y := s.procs[p], t.procs[p];
    !a.SchedAcquire? && !a.SchedRelease? &&
    match x.st
    case UNUSED => y.st == EMBRYO && a.ForkAlloc? && y.maker == Some(a.p)
    case EMBRYO => x.maker == Some(a.p) && ((y.st == RUNNABLE && a.ForkRun? && y.parent == Some(a.p)) || (y.st == UNUSED && a.ForkFail?))
    case RUNNABLE => y.st == RUNNING && a.SchedPick? && a.p == p && s.table == ByScheduler(a.c) && y.on == a.c < |t.cpus| && t.cpus[a.c] == Some(p)
    case RUNNING =>
      && Runs(s, p) && a.p == p && x.on < |t.cpus| && t.cpus[x.on] == None && t.table == ByScheduler(x.on)
      && ((y.st == RUNNABLE && a.Yield?) || (y.st == SLEEPING && (a.SleepSwitch? || a.WaitSleep?)) || (y.st == ZOMBIE && a.Exit?))
    case SLEEPING =>
      && y.st == RUNNABLE
      && (|| (a.Kill? && a.t == p)
          || (x.pc.Asleep? && a.RelWake? && a.p < |s.procs| && s.procs[a.p].pc == RelTable(x.pc.l))
          || (x.pc == WaitAsleep && a.Exit? && a.p < |s.procs| && (s.procs[a.p].parent == Some(p) || (p == s.initproc && HasZombie(s, a.p)))))
    case ZOMBIE => y.st == UNUSED && a.WaitReap? && x.parent == Some(a.p)
  }

  lemma LivesMaker(s: State, a: Step)
    requires Inv(s) && Enabled(s, a)
    ensures (a.ForkRun? || a.ForkFail?) && a.p < |s.procs| && s.procs[a.p].pc.Forking? ==>
              var np := s.procs[a.p].pc.np; np < |s.procs| && s.procs[np].st == EMBRYO && s.procs[np].maker == Some(a.p) && np != a.p
    ensures a.Yield? || a.SleepSwitch? || a.WaitSleep? || a.Exit? ==> Runs(s, a.p)
  {
    if a.ForkRun? || a.ForkFail? { assert ProcOk(s, a.p); }
    hide HasZombie, HasKids;
  }

  lemma LifeExit(s: State, a: Step, p: nat)
    requires Enabled(s, a) && p < |s.procs| && a.Exit?
    ensures |Next(s, a).procs| == |s.procs| && (Next(s, a).procs[p].st != s.procs[p].st ==> Lives(s, a, Next(s, a), p))
  {
    ExitShapeAt(s, a.p, p);
    ExitWakes(s, a.p, p);
    hide HasZombie, HasKids, ExitProcs;
  }

  lemma LifeElse(s: State, a: Step, p: nat)
    requires Enabled(s, a) && p < |s.procs| && !a.Exit?
    requires (a.ForkRun? || a.ForkFail?) && a.p < |s.procs| && s.procs[a.p].pc.Forking? ==>
               var np := s.procs[a.p].pc.np; np < |s.procs| && s.procs[np].st == EMBRYO && s.procs[np].maker == Some(a.p) && np != a.p
    ensures |Next(s, a).procs| == |s.procs| && (Next(s, a).procs[p].st != s.procs[p].st ==> Lives(s, a, Next(s, a), p))
  {
    hide HasZombie, HasKids, ExitProcs;
  }

  // A process changes its state only along fork, scheduler, sleep and wakeup, exit and wait: it runs only if a
  // scheduler picked it RUNNABLE, sleeps only by its own call, is woken only by a wakeup on what it sleeps on
  // or by kill, and is reaped only by its parent.
  lemma Lifecycle(s: State, a: Step, p: nat)
    requires Inv(s) && Enabled(s, a) && p < |s.procs|
    ensures |Next(s, a).procs| == |s.procs| && (Next(s, a).procs[p].st != s.procs[p].st ==> Lives(s, a, Next(s, a), p))
  {
    LivesMaker(s, a);
    hide Inv, Enabled, Next, Lives;
    if a.Exit? {
      LifeExit(s, a, p);
    } else {
      LifeElse(s, a, p);
    }
  }

  lemma ExitWakes(s: State, p: nat, i: nat)
    requires p < |s.procs| && i < |s.procs|
    ensures var r := ExitProcs(s, p);
      |r| == |s.procs| && (r[i].st != s.procs[i].st ==> s.procs[p].parent == Some(i) || (i == s.initproc && HasZombie(s, p)))
  {
    hide HasZombie;
  }

  // Those steps do make these changes: fork brings a child into the table, as RUNNABLE child of its maker in the
  // end or not at all, exit leaves a zombie, wait empties its place, and a wakeup wakes all that sleep on the lock.
  ghost predicate Does(s: State, a: Step, t: State) {
    && |t.procs| == |s.procs|
    && match a
       case ForkAlloc(p, np) => p < |t.procs| && np < |t.procs| && t.procs[p].pc == Forking(np) && t.procs[np].st == EMBRYO
       case ForkRun(p) =>
         && p < |t.procs| && s.procs[p].pc.Forking? && s.procs[p].pc.np < |t.procs|
         && var x := t.procs[s.procs[p].pc.np]; x.st == RUNNABLE && x.parent == Some(p) && x.pc == Forked
       case ForkFail(p) =>
         p < |t.procs| && s.procs[p].pc.Forking? && s.procs[p].pc.np < |t.procs| && t.procs[s.procs[p].pc.np].st == UNUSED
       case Exit(p) => p < |t.procs| && t.procs[p].st == ZOMBIE
       case WaitReap(p, q) => p < |t.procs| && q < |t.procs| && t.procs[q].st == UNUSED && t.procs[q].parent == None && t.procs[p].pc == Out
       case RelWake(p) => p < |t.procs| && s.procs[p].pc.RelTable? && forall q :: 0 <= q < |t.procs| ==> !OnLock(t.procs[q], s.procs[p].pc.l)
       case SchedPick(c, p) => p < |t.procs| && t.procs[p].st == RUNNING && t.procs[p].on == c < |t.cpus| && t.cpus[c] == Some(p)
       case Yield(p) => p < |t.procs| && t.procs[p].st == RUNNABLE
       case SleepSwitch(p) => p < |t.procs| && t.procs[p].st == SLEEPING
       case WaitSleep(p) => p < |t.procs| && t.procs[p].st == SLEEPING
       case _ => true
  }

  lemma LifeMoves(s: State, a: Step)
    requires Inv(s) && Enabled(s, a)
    ensures Does(s, a, Next(s, a))
  {
    LivesMaker(s, a);
    hide Inv, HasZombie, HasKids, ExitProcs;
    if a.Exit? {
      hide Does;
      ExitDoes(s, a);
    } else if a.RelWake? {
      hide Does;
      WakeDoes(s, a);
    }
  }

  lemma ExitDoes(s: State, a: Step)
    requires Enabled(s, a) && a.Exit?
    ensures Does(s, a, Next(s, a))
  {
    ExitShapeAt(s, a.p, a.p);
    hide HasZombie, HasKids, ExitProcs;
  }

  lemma WakeDoes(s: State, a: Step)
    requires Enabled(s, a) && a.RelWake?
    ensures Does(s, a, Next(s, a))
  {
  }

  // A process that gave up its CPU, and is as it left it or as a wakeup left it, goes on where it was: after
  // yield() with what it did, after sleep() with taking the spinlock again, in wait() with scanning again.
  lemma GoesOn(s: State, a: Step, u: State, c: nat, p: nat)
    requires Inv(s) && Enabled(s, a) && a.Yield? && p == a.p && p < |s.procs|
    requires Enabled(u, SchedPick(c, p)) && u.procs[p] == Next(s, a).procs[p]
    ensures var t := Next(u, SchedPick(c, p)); p < |t.procs| && t.procs[p] == s.procs[p].(on := c)
  {
    hide Inv, HasZombie, HasKids;
  }

  lemma WakesUp(s: State, a: Step, u: State, c: nat, p: nat)
    requires Inv(s) && Enabled(s, a) && (a.SleepSwitch? || a.WaitSleep?) && p == a.p && p < |s.procs|
    requires Enabled(u, SchedPick(c, p)) && u.procs[p].pc == Next(s, a).procs[p].pc
    ensures var t := Next(u, SchedPick(c, p));
      && p < |t.procs|
      && (a.SleepSwitch? ==> s.procs[p].pc.SleepTable? && t.procs[p].pc == Woken(s.procs[p].pc.l) && t.table == Free)
      && (a.WaitSleep? ==> t.procs[p].pc == WaitScan && t.table == ByProc(p))
  {
    hide Inv, HasZombie, HasKids;
  }

  // A process is marked as killed exactly by kill, which leaves it awake, and unmarked when it is reaped.
  predicate Marked(s: State, a: Step, t: State, q: nat) {
    && q < |s.procs| == |t.procs|
    && (t.procs[q].killed <==> (s.procs[q].killed && !(a.WaitReap? && a.q == q)) || (a.Kill? && a.t == q))
    && (a.Kill? && a.t == q ==> t.procs[q].st != SLEEPING)
  }

  lemma KillMarks(s: State, a: Step, q: nat)
    requires Inv(s) && Enabled(s, a) && q < |s.procs|
    ensures Marked(s, a, Next(s, a), q)
  {
    hide Inv, Enabled, Next, Marked;
    if a.Exit? {
      ExitMarks(s, a, q);
    } else if a.RelWake? {
      WakeMarks(s, a, q);
    } else {
      OtherMarks(s, a, q);
    }
  }

  lemma ExitMarks(s: State, a: Step, q: nat)
    requires Enabled(s, a) && a.Exit? && q < |s.procs|
    ensures Marked(s, a, Next(s, a), q)
  {
    ExitShapeAt(s, a.p, q);
    hide HasZombie, HasKids, ExitProcs;
  }

  lemma WakeMarks(s: State, a: Step, q: nat)
    requires Enabled(s, a) && a.RelWake? && q < |s.procs|
    ensures Marked(s, a, Next(s, a), q)
  {
  }

  lemma OtherMarks(s: State, a: Step, q: nat)
    requires Enabled(s, a) && !a.Exit? && !a.RelWake? && q < |s.procs|
    ensures Marked(s, a, Next(s, a), q)
  {
    hide HasZombie, HasKids, ExitProcs, WakeLock;
  }

  // The children of a process that exits belong to init.
  lemma Orphans(s: State, p: nat, q: nat)
    requires Inv(s) && Enabled(s, Exit(p)) && q < |s.procs|
    ensures var t := Next(s, Exit(p));
      |t.procs| == |s.procs| && t.procs[q].parent == if s.procs[q].parent == Some(p) then Some(s.initproc) else s.procs[q].parent
  {
    ExitShapeAt(s, p, q);
    hide Inv, HasZombie, ExitProcs;
  }

  // ---- sleeplocks exclude ----

  // In acquiresleep for sleeplock l, from taking the spinlock to the return; and in releasesleep.
  predicate InAcquire(pc: Pc, l: nat) {
    || pc == Testing(l) || pc == SleepSeen(l) || pc == SleepBoth(l) || pc == SleepTable(l) || pc == Asleep(l)
    || pc == Woken(l) || pc == Yielded(Woken(l))
  }

  predicate InRelease(pc: Pc, l: nat) { pc == RelHave(l) || pc == RelTable(l) || pc == RelDone(l) }

  // Between s and t process p returned from acquiresleep, or began to give the lock up.
  predicate Returns(s: State, t: State, p: nat, l: nat) {
    p < |s.procs| == |t.procs| && InAcquire(s.procs[p].pc, l) && !InAcquire(t.procs[p].pc, l)
  }

  predicate GivesUp(s: State, t: State, p: nat, l: nat) {
    p < |s.procs| == |t.procs| && !InRelease(s.procs[p].pc, l) && InRelease(t.procs[p].pc, l)
  }

  // What a step may do to a process, as far as sleeplock l goes.
  predicate PcMoves(s: State, t: State, p: nat, l: nat) {
    && p < |s.procs| == |t.procs| && l < |s.locked| == |t.locked|
    && (Returns(s, t, p, l) ==> s.procs[p].pc == Testing(l) && s.locked[l] == None && t.locked[l] == Some(p))
    && (GivesUp(s, t, p, l) ==> s.locked[l] == Some(p) && t.locked[l] == None)
    && (s.procs[p].pc == Testing(l) && t.procs[p].pc != Testing(l) ==>
          (t.procs[p].pc == SleepSeen(l) <==> s.locked[l].Some?) && (t.procs[p].pc == Out <==> s.locked[l].None?))
  }

  lemma PcOnLock(s: State, a: Step, p: nat, l: nat)
    requires Enabled(s, a) && OnSleeplock(a) && p < |s.procs| && l < |s.spin| == |s.locked|
    ensures PcMoves(s, Next(s, a), p, l)
  {
    hide HasZombie, HasKids;
  }

  // No step other than those on its sleeplock takes a process into or out of the two calls.
  predicate SameRegion(x: Pc, y: Pc) { x == y || (Region(x) == Region(y) && !y.Testing? && !x.Testing?) }

  function Region(pc: Pc): (Option<nat>, Option<nat>) {
    match pc
    case SleepSeen(l) => (Some(l), None)
    case SleepBoth(l) => (Some(l), None)
    case SleepTable(l) => (Some(l), None)
    case Asleep(l) => (Some(l), None)
    case Woken(l) => (Some(l), None)
    case Testing(l) => (Some(l), None)
    case Yielded(b) => if b.Woken? then (Some(b.l), None) else (None, None)
    case RelHave(l) => (None, Some(l))
    case RelTable(l) => (None, Some(l))
    case RelDone(l) => (None, Some(l))
    case _ => (None, None)
  }

  lemma RegionMeans(pc: Pc, l: nat)
    ensures InAcquire(pc, l) <==> Region(pc).0 == Some(l) && (pc.Yielded? ==> pc.back.Woken?)
    ensures InRelease(pc, l) <==> Region(pc).1 == Some(l)
  {
  }

  lemma RegionMoves(s: State, t: State, p: nat, l: nat)
    requires p < |s.procs| == |t.procs| && l < |s.locked| == |t.locked| && SameRegion(s.procs[p].pc, t.procs[p].pc)
    ensures PcMoves(s, t, p, l)
  {
    RegionMeans(s.procs[p].pc, l);
    RegionMeans(t.procs[p].pc, l);
    hide InAcquire, InRelease, Region;
  }

  lemma RegionSched(s: State, a: Step, p: nat)
    requires Enabled(s, a) && p < |s.procs| && ProcOk(s, p)
    requires a.SchedAcquire? || a.SchedRelease? || a.SchedPick? || a.Yield? || a.WaitSleep? || a.SleepDropSpin? || a.RelWake?
    ensures var t := Next(s, a); |t.procs| == |s.procs| && t.locked == s.locked && SameRegion(s.procs[p].pc, t.procs[p].pc)
  {
    hide HasZombie, HasKids;
  }

  lemma RegionCalls(s: State, a: Step, p: nat)
    requires Enabled(s, a) && p < |s.procs| && ProcOk(s, p)
    requires a.WaitCall? || a.WaitReap? || a.WaitNone? || a.ForkAlloc? || a.ForkFail? || a.Kill?
    ensures var t := Next(s, a); |t.procs| == |s.procs| && t.locked == s.locked && SameRegion(s.procs[p].pc, t.procs[p].pc)
  {
    hide HasZombie, HasKids;
  }

  lemma RegionFork(s: State, a: Step, p: nat)
    requires Enabled(s, a) && p < |s.procs| && ProcOk(s, p) && a.ForkRun? && ProcOk(s, a.p)
    ensures var t := Next(s, a); |t.procs| == |s.procs| && t.locked == s.locked && SameRegion(s.procs[p].pc, t.procs[p].pc)
  {
  }

  lemma RegionExit(s: State, a: Step, p: nat)
    requires Enabled(s, a) && p < |s.procs| && a.Exit?
    ensures var t := Next(s, a); |t.procs| == |s.procs| && t.locked == s.locked && SameRegion(s.procs[p].pc, t.procs[p].pc)
  {
    ExitShapeAt(s, a.p, p);
    hide HasZombie, HasKids, ExitProcs;
  }

  lemma PcStep(s: State, a: Step, p: nat, l: nat)
    requires Inv(s) && Enabled(s, a) && p < |s.procs| && l < |s.spin|
    ensures PcMoves(s, Next(s, a), p, l)
  {
    assert ProcOk(s, p);
    if a.ForkRun? { assert ProcOk(s, a.p); }
    hide LockQuiet, WaitOk, CpuOk, SpinOk, ProcOk, Enabled, Next, PcMoves, SameRegion;
    if OnSleeplock(a) {
      PcOnLock(s, a, p, l);
    } else {
      if a.Exit? {
        RegionExit(s, a, p);
      } else if a.ForkRun? {
        RegionFork(s, a, p);
      } else if a.WaitCall? || a.WaitReap? || a.WaitNone? || a.ForkAlloc? || a.ForkFail? || a.Kill? {
        RegionCalls(s, a, p);
      } else {
        RegionSched(s, a, p);
      }
      RegionMoves(s, Next(s, a), p, l);
    }
  }

  predicate LockMoves(s: State, t: State, l: nat) {
    && |t.procs| == |s.procs| && l < |s.locked| == |t.locked|
    && (t.locked[l] == s.locked[l]
        || (s.locked[l].Some? && t.locked[l] == None && GivesUp(s, t, s.locked[l].value, l))
        || (s.locked[l] == None && t.locked[l].Some? && Returns(s, t, t.locked[l].value, l)))
  }

  lemma LockedOnLock(s: State, a: Step, l: nat)
    requires Enabled(s, a) && (a.TestLocked? || a.Release?) && l < |s.spin| == |s.locked|
    ensures LockMoves(s, Next(s, a), l)
  {
  }

  // locked changes only so.
  lemma LockedStep(s: State, a: Step, l: nat)
    requires Enabled(s, a) && l < |s.spin| == |s.locked|
    ensures LockMoves(s, Next(s, a), l)
  {
    if a.Exit? { ExitShape(s, a.p); }
    if a.TestLocked? || a.Release? {
      LockedOnLock(s, a, l);
    } else {
      hide HasZombie, HasKids, ExitProcs, Returns, GivesUp;
    }
  }

  ghost predicate Run(s: State, steps: seq<Step>, t: State)
    decreases |steps|
  {
    if steps == [] then s == t else Enabled(s, steps[0]) && Run(Next(s, steps[0]), steps[1..], t)
  }

  // Only the holder gives a sleeplock up, and it goes only from nobody to a process that holds the spinlock
  // and returns from acquiresleep with it; nobody returns without it.
  lemma LockStep(s: State, a: Step, l: nat)
    requires Inv(s) && Enabled(s, a) && l < |s.spin|
    ensures var t := Next(s, a);
      && |t.procs| == |s.procs| && |t.locked| == |s.locked| == |s.spin|
      && (forall p :: 0 <= p < |s.procs| && Returns(s, t, p, l) ==> s.spin[l] == Some(p) && s.locked[l] == None && t.locked[l] == Some(p))
      && (forall p :: 0 <= p < |s.procs| && GivesUp(s, t, p, l) ==> s.locked[l] == Some(p) && t.locked[l] == None)
      && (t.locked[l] == s.locked[l]
          || (s.locked[l].Some? && t.locked[l] == None && GivesUp(s, t, s.locked[l].value, l))
          || (s.locked[l] == None && t.locked[l].Some? && Returns(s, t, t.locked[l].value, l)))
  {
    LockedStep(s, a, l);
    var t := Next(s, a);
    hide LockQuiet, WaitOk, CpuOk, SpinOk, ProcOk, Enabled, Next, InAcquire, InRelease;
    forall p | 0 <= p < |s.procs|
      ensures Returns(s, t, p, l) ==> s.spin[l] == Some(p) && s.locked[l] == None && t.locked[l] == Some(p)
      ensures GivesUp(s, t, p, l) ==> s.locked[l] == Some(p) && t.locked[l] == None
    {
      assert ProcOk(s, p);
      PcStep(s, a, p, l);
      TestingHolds(s, p, l);
    }
  }

  // A process that looks at locked goes to sleep exactly if the lock is held, and returns exactly if not.
  lemma TestDecides(s: State, a: Step, p: nat, l: nat)
    requires Inv(s) && Enabled(s, a) && p < |s.procs| && l < |s.spin| && s.procs[p].pc == Testing(l)
    ensures var t := Next(s, a);
      && p < |t.procs| && |s.locked| == |s.spin|
      && (t.procs[p].pc != Testing(l) ==>
            (t.procs[p].pc == SleepSeen(l) <==> s.locked[l].Some?) && (t.procs[p].pc == Out <==> s.locked[l].None?))
  {
    PcStep(s, a, p, l);
    hide Next, Enabled, LockQuiet, WaitOk, CpuOk, SpinOk, ProcOk;
  }

  lemma TestingHolds(s: State, p: nat, l: nat)
    requires p < |s.procs| && ProcOk(s, p) && l < |s.spin|
    ensures s.procs[p].pc == Testing(l) ==> s.spin[l] == Some(p)
  {
  }

  // Who is inside: those that have returned from acquiresleep and not yet begun to give the lock up, when
  // those of ins were inside at the beginning.
  ghost function Inside(s: State, steps: seq<Step>, l: nat, ins: set<nat>): set<nat>
    decreases |steps|
  {
    if steps == [] || !Enabled(s, steps[0]) then ins
    else
      var t := Next(s, steps[0]);
      Inside(t, steps[1..], l, set p: nat | p < |s.procs| && ((p in ins && !GivesUp(s, t, p, l)) || Returns(s, t, p, l)))
  }

  function Holder(s: State, l: nat): set<nat> {
    if l < |s.locked| && s.locked[l].Some? then {s.locked[l].value} else {}
  }

  // The holder is a process.
  ghost predicate HoldersThere(s: State) {
    forall l :: 0 <= l < |s.locked| && s.locked[l].Some? ==> s.locked[l].value < |s.procs|
  }

  lemma InsideNext(s: State, a: Step, l: nat)
    requires Inv(s) && Enabled(s, a) && l < |s.spin| && HoldersThere(s)
    ensures var t := Next(s, a);
      && HoldersThere(t) && |t.spin| == |s.spin|
      && (set p: nat | p < |s.procs| && ((p in Holder(s, l) && !GivesUp(s, t, p, l)) || Returns(s, t, p, l))) == Holder(t, l)
  {
    var t := Next(s, a);
    StepKeeps(s, a);
    LockStep(s, a, l);
    SpinsStay(s, a);
    assert HoldersThere(t) by {
      hide Next, Enabled, ProcOk, CpuOk, SpinOk, LockQuiet, WaitOk, InAcquire, InRelease;
      forall k | 0 <= k < |t.locked| && t.locked[k].Some? ensures t.locked[k].value < |t.procs| {
        LockStep(s, a, k);
      }
    }
    hide Next, Enabled, Inv, InAcquire, InRelease;
    var now := set p: nat | p < |s.procs| && ((p in Holder(s, l) && !GivesUp(s, t, p, l)) || Returns(s, t, p, l));
    forall p: nat ensures p in now <==> p in Holder(t, l) {
    }
  }

  lemma SpinsStay(s: State, a: Step)
    requires Enabled(s, a) && |s.spin| == |s.locked|
    ensures |Next(s, a).spin| == |s.spin|
  {
    hide ExitProcs, HasZombie, HasKids;
  }

  // In every run: who has returned from acquiresleep and not given the lock up is who locked names.
  lemma {:induction false} InsideIs(s: State, steps: seq<Step>, t: State, l: nat)
    requires Inv(s) && Run(s, steps, t) && l < |s.spin| && HoldersThere(s)
    ensures |t.spin| == |s.spin| && Inside(s, steps, l, Holder(s, l)) == Holder(t, l)
    decreases |steps|
  {
    hide Inv, Enabled, Next, Holder, Returns, GivesUp, HoldersThere;
    if steps != [] {
      StepKeeps(s, steps[0]);
      InsideNext(s, steps[0], l);
      InsideIs(Next(s, steps[0]), steps[1..], t, l);
    }
  }

  // userinit has made the first process RUNNABLE; no CPU runs anything yet.
  ghost predicate Initial(s: State) {
    && |s.spin| == |s.locked| && s.initproc < |s.procs| && s.table.Free?
    && (forall p :: 0 <= p < |s.procs| ==> s.procs[p] == if p == s.initproc then UNUSEDPROC.(st := RUNNABLE, pc := Forked) else UNUSEDPROC)
    && (forall c :: 0 <= c < |s.cpus| ==> s.cpus[c] == None)
    && (forall l :: 0 <= l < |s.spin| ==> s.spin[l] == None && s.locked[l] == None)
  }

  // There is such a state for every number of processes, CPUs and sleeplocks.
  lemma Boots(procs: nat, cpus: nat, locks: nat)
    requires procs > 0
    ensures exists s :: Initial(s) && |s.procs| == procs && |s.cpus| == cpus && |s.spin| == locks
  {
    var s := State(seq(procs, p => if p == 0 then UNUSEDPROC.(st := RUNNABLE, pc := Forked) else UNUSEDPROC),
                   seq(cpus, _ => None), Free, seq(locks, _ => None), seq(locks, _ => None), 0);
    assert Initial(s);
  }

  lemma InitialInv(s: State)
    requires Initial(s)
    ensures Inv(s)
  {
  }

  lemma {:induction false} RunKeeps(s: State, steps: seq<Step>, t: State)
    requires Inv(s) && Run(s, steps, t)
    ensures Inv(t)
    decreases |steps|
  {
    hide Inv, Enabled, Next;
    if steps != [] {
      StepKeeps(s, steps[0]);
      RunKeeps(Next(s, steps[0]), steps[1..], t);
    }
  }

  lemma InsideFromStart(s: State, steps: seq<Step>, t: State, l: nat)
    requires Initial(s) && Run(s, steps, t) && l < |s.spin|
    ensures Inside(s, steps, l, {}) == Holder(t, l)
  {
    InitialInv(s);
    assert s.locked[l] == None;
    hide Inv, Run, Inside;
    InsideIs(s, steps, t, l);
  }

  // In every run from the start: no wakeup on a sleeplock is lost, no parent sleeps on a dead child, no
  // process is on two CPUs, and at most one process is inside a sleeplock.
  lemma AlwaysSafe(s: State, steps: seq<Step>, t: State)
    requires Initial(s) && Run(s, steps, t)
    ensures forall l, p :: 0 <= l < |t.spin| == |t.locked| && 0 <= p < |t.procs| && t.spin[l] == None && t.locked[l] == None ==>
              !OnLock(t.procs[p], l) && t.procs[p].pc != SleepSeen(l) && t.procs[p].pc != SleepBoth(l) && t.procs[p].pc != SleepTable(l)
    ensures forall p, q :: 0 <= p < |t.procs| && 0 <= q < |t.procs| && Waits(t.procs[p]) ==> !ZombieChild(t, p, q)
    ensures forall c, d :: 0 <= c < d < |t.cpus| && t.cpus[c].Some? ==> t.cpus[c] != t.cpus[d]
    ensures forall l: nat, p, q :: l < |s.spin| && p in Inside(s, steps, l, {}) && q in Inside(s, steps, l, {}) ==> p == q
  {
    InitialInv(s);
    RunKeeps(s, steps, t);
    SafeNow(t);
    hide Inv, Initial, Run, Inside, Waits, OnLock, ZombieChild;
    forall l: nat | l < |s.spin| ensures Inside(s, steps, l, {}) == Holder(t, l) {
      InsideFromStart(s, steps, t, l);
    }
  }

  lemma SafeNow(t: State)
    requires Inv(t)
    ensures forall l, p :: 0 <= l < |t.spin| == |t.locked| && 0 <= p < |t.procs| && t.spin[l] == None && t.locked[l] == None ==>
              !OnLock(t.procs[p], l) && t.procs[p].pc != SleepSeen(l) && t.procs[p].pc != SleepBoth(l) && t.procs[p].pc != SleepTable(l)
    ensures forall p, q :: 0 <= p < |t.procs| && 0 <= q < |t.procs| && Waits(t.procs[p]) ==> !ZombieChild(t, p, q)
    ensures forall c, d :: 0 <= c < d < |t.cpus| && t.cpus[c].Some? ==> t.cpus[c] != t.cpus[d]
  {
    hide Inv;
    forall l, p | 0 <= l < |t.spin| == |t.locked| && 0 <= p < |t.procs| && t.spin[l] == None && t.locked[l] == None
      ensures !OnLock(t.procs[p], l) && t.procs[p].pc != SleepSeen(l) && t.procs[p].pc != SleepBoth(l) && t.procs[p].pc != SleepTable(l)
    {
      NoLostWakeup(t, l, p);
    }
    forall p, q | 0 <= p < |t.procs| && 0 <= q < |t.procs| && Waits(t.procs[p]) ensures !ZombieChild(t, p, q) {
      NoZombieForgotten(t, p, q);
    }
    forall c, d | 0 <= c < d < |t.cpus| && t.cpus[c].Some? ensures t.cpus[c] != t.cpus[d] {
      if t.cpus[c] == t.cpus[d] { OneCpu(t, c, d); }
    }
  }
}
