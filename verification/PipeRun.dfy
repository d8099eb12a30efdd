// Readers and writers of one pipe in any interleaving (pipe.c).  A step is one stretch of pipewrite,
// piperead or pipeclose under the pipe's lock; between steps the lock is free.
module PipeRun {
  import opened Blocks
  import opened Pipe

  datatype Doing =
    | Outside
    | Writing(left: seq<Byte>)        // about to take the lock, or woken up
    | WriteAsleep(left: seq<Byte>)    // until somebody reads
    | Reading(n: nat)
    | ReadAsleep(n: nat)              // until somebody writes

  datatype State = State(queue: seq<Byte>, readopen: bool, writeopen: bool, procs: map<nat, Doing>,
                         killed: set<nat>, written: seq<Byte>, got: seq<Byte>)

  datatype Step =
    | CallWrite(p: nat, bytes: seq<Byte>)
    | CallRead(p: nat, n: nat)
    | RunWrite(p: nat)
    | RunRead(p: nat)
    | Kill(p: nat)                    // the process is marked, and woken if it sleeps
    | CloseWrite
    | CloseRead

  predicate IsWriter(d: Doing) { d.Writing? || d.WriteAsleep? }

  predicate IsReader(d: Doing) { d.Reading? || d.ReadAsleep? }

  function WakeReaders(procs: map<nat, Doing>): map<nat, Doing> {
    map p | p in procs :: if procs[p].ReadAsleep? then Reading(procs[p].n) else procs[p]
  }

  function WakeWriters(procs: map<nat, Doing>): map<nat, Doing> {
    map p | p in procs :: if procs[p].WriteAsleep? then Writing(procs[p].left) else procs[p]
  }

  // A file descriptor is only closed for the last time when no process is inside a call on it.
  predicate Enabled(s: State, a: Step) {
    match a
    case CallWrite(p, _) => p in s.procs && s.procs[p].Outside? && s.writeopen
    case CallRead(p, _) => p in s.procs && s.procs[p].Outside? && s.readopen
    case RunWrite(p) => p in s.procs && s.procs[p].Writing?
    case RunRead(p) => p in s.procs && s.procs[p].Reading?
    case Kill(p) => p in s.procs
    case CloseWrite => s.writeopen && forall p :: p in s.procs ==> !IsWriter(s.procs[p])
    case CloseRead => s.readopen && forall p :: p in s.procs ==> !IsReader(s.procs[p])
  }

  function Woken(d: Doing): Doing {
    match d
    case WriteAsleep(left) => Writing(left)
    case ReadAsleep(n) => Reading(n)
    case _ => d
  }

  // One stretch of pipewrite: what Pipe.Pipe.WriteOn does to the queue, and says of sleep and wakeup.
  function DoWrite(s: State, p: nat): State
    requires p in s.procs && s.procs[p].Writing? && |s.queue| <= PIPESIZE
  {
    var left := s.procs[p].left;
    var w := WriteStretch(|left|, PIPESIZE - |s.queue|, s.readopen, p in s.killed);
    var procs := if w.woken then WakeReaders(s.procs) else s.procs;
    s.(queue := s.queue + left[..w.moved], written := s.written + left[..w.moved],
       procs := procs[p := if w.asleep then WriteAsleep(left[w.moved..]) else Outside])
  }

  // One stretch of piperead: what Pipe.Pipe.ReadOn does.
  function DoRead(s: State, p: nat): State
    requires p in s.procs && s.procs[p].Reading?
  {
    var n := s.procs[p].n;
    var r := ReadStretch(n, |s.queue|, s.writeopen, p in s.killed);
    var procs := if r.woken then WakeWriters(s.procs) else s.procs;
    s.(queue := s.queue[r.moved..], got := s.got + s.queue[..r.moved],
       procs := procs[p := if r.asleep then ReadAsleep(n) else Outside])
  }

  function Next(s: State, a: Step): State
    requires Enabled(s, a) && |s.queue| <= PIPESIZE
  {
    match a
    case CallWrite(p, bytes) => s.(procs := s.procs[p := Writing(bytes)])
    case CallRead(p, n) => s.(procs := s.procs[p := Reading(n)])
    case RunWrite(p) => DoWrite(s, p)
    case RunRead(p) => DoRead(s, p)
    case Kill(p) => s.(killed := s.killed + {p}, procs := s.procs[p := Woken(s.procs[p])])
    case CloseWrite => s.(writeopen := false, procs := WakeReaders(s.procs))
    case CloseRead => s.(readopen := false, procs := WakeWriters(s.procs))
  }

  // ---- what a stretch does ----

  // From s to t writer p got k bytes in.  If these are not all, the pipe is full: then it sleeps, unless nobody
  // can read any more or it was killed, and gives up in just these cases.
  predicate WroteOn(s: State, t: State, p: nat, k: nat)
    requires p in s.procs && s.procs[p].Writing?
  {
    var left := s.procs[p].left;
    && k <= |left| && t.queue == s.queue + left[..k] && t.written == s.written + left[..k] && t.got == s.got
    && (k < |left| ==> |t.queue| == PIPESIZE)
    && t.procs.Keys == s.procs.Keys && t.readopen == s.readopen && t.writeopen == s.writeopen
    && t.procs[p] == (if k < |left| && s.readopen && p !in s.killed then WriteAsleep(left[k..]) else Outside)
    && forall q :: q in s.procs && q != p ==>
         t.procs[q] == if s.procs[q].ReadAsleep? && (k == |left| || (s.readopen && p !in s.killed)) then Reading(s.procs[q].n) else s.procs[q]
  }

  // Reader p went to sleep exactly if the pipe was empty and open and it was not killed, and was refused exactly
  // if the pipe was empty and open and it was.  Otherwise it took k bytes, all it asked for or all there were.
  predicate ReadOff(s: State, t: State, p: nat, k: nat)
    requires p in s.procs && s.procs[p].Reading?
  {
    var n, blocked := s.procs[p].n, s.queue == [] && s.writeopen;
    && k <= n && k <= |s.queue| && t.queue == s.queue[k..] && t.got == s.got + s.queue[..k] && t.written == s.written
    && (blocked || k == n || k == |s.queue|)
    && t.procs.Keys == s.procs.Keys && t.readopen == s.readopen && t.writeopen == s.writeopen
    && t.procs[p] == (if blocked && p !in s.killed then ReadAsleep(n) else Outside)
    && forall q :: q in s.procs && q != p ==>
         t.procs[q] == if s.procs[q].WriteAsleep? && !blocked then Writing(s.procs[q].left) else s.procs[q]
  }

  lemma WriterStops(s: State, p: nat) returns (k: nat)
    requires Fifo(s) && Enabled(s, RunWrite(p))
    ensures WroteOn(s, Next(s, RunWrite(p)), p, k)
  {
    WokenReaders(s.procs);
    hide WakeReaders;
    k := WriteStretch(|s.procs[p].left|, PIPESIZE - |s.queue|, s.readopen, p in s.killed).moved;
  }

  lemma ReaderTakes(s: State, p: nat) returns (k: nat)
    requires Fifo(s) && Enabled(s, RunRead(p))
    ensures ReadOff(s, Next(s, RunRead(p)), p, k)
  {
    WokenWriters(s.procs);
    hide WakeWriters;
    k := ReadStretch(s.procs[p].n, |s.queue|, s.writeopen, p in s.killed).moved;
  }

  // The other steps move no byte: a call begins, a killed process is marked and awake, a closed end stays closed and
  // leaves nobody asleep on the other one.
  ghost predicate NoBytes(s: State, a: Step, t: State) {
    && t.queue == s.queue && t.written == s.written && t.got == s.got && t.procs.Keys == s.procs.Keys
    && t.readopen == (s.readopen && !a.CloseRead?) && t.writeopen == (s.writeopen && !a.CloseWrite?)
    && match a
       case CallWrite(p, bytes) => t.killed == s.killed && t.procs == s.procs[p := Writing(bytes)]
       case CallRead(p, n) => t.killed == s.killed && t.procs == s.procs[p := Reading(n)]
       case Kill(p) => t.killed == s.killed + {p} && forall q :: q in s.procs ==> Resumed(s.procs[q], t.procs[q], q == p, q == p)
       case CloseWrite => t.killed == s.killed && forall q :: q in s.procs ==> Resumed(s.procs[q], t.procs[q], true, false)
       case CloseRead => t.killed == s.killed && forall q :: q in s.procs ==> Resumed(s.procs[q], t.procs[q], false, true)
       case _ => false
  }

  // x goes on as y: woken if it is asleep as a reader, or as a writer, and they are woken.
  predicate Resumed(x: Doing, y: Doing, readers: bool, writers: bool) {
    if x.ReadAsleep? && readers then y == Reading(x.n)
    else if x.WriteAsleep? && writers then y == Writing(x.left)
    else y == x
  }

  lemma OthersMoveNone(s: State, a: Step)
    requires Fifo(s) && Enabled(s, a) && !a.RunWrite? && !a.RunRead?
    ensures NoBytes(s, a, Next(s, a))
  {
  }

  lemma WokenWriters(procs: map<nat, Doing>)
    ensures WakeWriters(procs).Keys == procs.Keys
    ensures forall q :: q in procs ==> WakeWriters(procs)[q] == if procs[q].WriteAsleep? then Writing(procs[q].left) else procs[q]
  {
  }

  lemma WokenReaders(procs: map<nat, Doing>)
    ensures WakeReaders(procs).Keys == procs.Keys
    ensures forall q :: q in procs ==> WakeReaders(procs)[q] == if procs[q].ReadAsleep? then Reading(procs[q].n) else procs[q]
  {
  }

  // ---- first in, first out, in every run ----

  ghost predicate Fifo(s: State) {
    |s.queue| <= PIPESIZE && s.written == s.got + s.queue
  }

  lemma FifoStep(s: State, a: Step)
    requires Fifo(s) && Enabled(s, a)
    ensures Fifo(Next(s, a))
  {
    if a.RunWrite? {
      var left := s.procs[a.p].left;
      var k := WriteStretch(|left|, PIPESIZE - |s.queue|, s.readopen, a.p in s.killed).moved;
      assert s.got + s.queue + left[..k] == s.got + (s.queue + left[..k]);
    } else if a.RunRead? {
      var k := ReadStretch(s.procs[a.p].n, |s.queue|, s.writeopen, a.p in s.killed).moved;
      assert s.got + s.queue[..k] + s.queue[k..] == s.got + s.queue;
    }
  }

  // ---- who may sleep ----

  ghost predicate Inv(s: State) {
    && Fifo(s)
    && (forall p :: p in s.procs && s.procs[p].ReadAsleep? ==> s.queue == [] && s.writeopen)
    && (forall p :: p in s.procs && s.procs[p].WriteAsleep? ==> |s.queue| == PIPESIZE && s.readopen)
    && (!s.readopen ==> forall p :: p in s.procs ==> !IsReader(s.procs[p]))
    && (!s.writeopen ==> forall p :: p in s.procs ==> !IsWriter(s.procs[p]))
  }

  ghost predicate ReaderAsleep(s: State) {
    exists p :: p in s.procs && s.procs[p].ReadAsleep?
  }

  // The one step that loses a wakeup: a killed writer gives up in front of a pipe that it has just
  // filled, while a reader sleeps.
  ghost predicate Forgets(s: State, a: Step)
    requires Enabled(s, a)
  {
    a.RunWrite? && a.p in s.killed && s.readopen && |s.procs[a.p].left| > PIPESIZE && ReaderAsleep(s)
  }

  lemma WriteStep(s: State, p: nat)
    requires Inv(s) && Enabled(s, RunWrite(p))
    ensures Inv(DoWrite(s, p)) <==> !Forgets(s, RunWrite(p))
  {
    FifoStep(s, RunWrite(p));
    var t := DoWrite(s, p);
    var left := s.procs[p].left;
    var room := PIPESIZE - |s.queue|;
    if Forgets(s, RunWrite(p)) {
      var r :| r in s.procs && s.procs[r].ReadAsleep?;
      assert r in t.procs && t.procs[r].ReadAsleep? && |t.queue| == PIPESIZE;
    }
  }

  lemma ReadStep(s: State, p: nat)
    requires Inv(s) && Enabled(s, RunRead(p))
    ensures Inv(Next(s, RunRead(p)))
  {
    hide Next, Fifo;
    FifoStep(s, RunRead(p));
    var k := ReaderTakes(s, p);
  }

  // A step keeps the sleepers honest exactly if it does not forget a wakeup.
  lemma StepKeeps(s: State, a: Step)
    requires Inv(s) && Enabled(s, a)
    ensures Inv(Next(s, a)) <==> !Forgets(s, a)
  {
    if a.RunWrite? {
      WriteStep(s, a.p);
    } else if a.RunRead? {
      ReadStep(s, a.p);
    } else {
      FifoStep(s, a);
      hide Fifo, WriteStretch, ReadStretch;
    }
  }

  // ---- whole runs ----

  ghost predicate Run(s: State, steps: seq<Step>, t: State)
    decreases |steps|
  {
    if steps == [] then s == t
    else Fifo(s) && Enabled(s, steps[0]) && Run(Next(s, steps[0]), steps[1..], t)
  }

  // A new pipe, and the processes that have it open.
  function Start(ps: set<nat>): State {
    State([], true, true, map p | p in ps :: Outside, {}, [], [])
  }

  lemma StartOk(ps: set<nat>)
    ensures Inv(Start(ps))
  {
  }

  // Without kills: whenever the lock is free, a sleeping reader means empty and open for writing, a
  // sleeping writer means full and open for reading.
  lemma {:induction false} RunKeeps(s: State, steps: seq<Step>, t: State)
    requires Inv(s) && s.killed == {} && Run(s, steps, t) && forall k :: 0 <= k < |steps| ==> !steps[k].Kill?
    ensures Inv(t)
    decreases |steps|
  {
    if steps != [] {
      assert !steps[0].Kill?;
      StepKeeps(s, steps[0]);
      RunKeeps(Next(s, steps[0]), steps[1..], t);
    }
  }

  // With or without kills: bytes come out in the order in which they went in, at most 512 are on
  // the way, and nothing once written or read changes.
  lemma {:induction false} RunFifo(s: State, steps: seq<Step>, t: State)
    requires Fifo(s) && Run(s, steps, t)
    ensures Fifo(t) && t.got <= t.written && |t.written| - |t.got| <= PIPESIZE
    ensures s.got <= t.got && s.written <= t.written
    decreases |steps|
  {
    if steps != [] {
      FifoStep(s, steps[0]);
      StepGrows(s, steps[0]);
      RunFifo(Next(s, steps[0]), steps[1..], t);
    }
  }

  lemma StepGrows(s: State, a: Step)
    requires Fifo(s) && Enabled(s, a)
    ensures s.got <= Next(s, a).got && s.written <= Next(s, a).written
  {
  }

  // The run that shows it: the reader sleeps, the killed writer fills the pipe and leaves, and the
  // reader sleeps on although there are 512 bytes to read.
  lemma LostWakeup()
    ensures var steps := [CallRead(1, 1), RunRead(1), CallWrite(2, Zeroes(513)), Kill(2), RunWrite(2)];
      var t := State(Zeroes(513)[..PIPESIZE], true, true, map[1 := ReadAsleep(1), 2 := Outside], {2}, Zeroes(513)[..PIPESIZE], []);
      Run(Start({1, 2}), steps, t)
  {
    var zs := Zeroes(513);
    hide Zeroes;
    var none: seq<Byte> := [];
    var s0 := Start({1, 2});
    assert s0.procs == map[1 := Outside, 2 := Outside];
    var s1 := Next(s0, CallRead(1, 1));
    assert s1.procs == map[1 := Reading(1), 2 := Outside];
    var s2 := Next(s1, RunRead(1));
    assert s2 == State(none, true, true, map[1 := ReadAsleep(1), 2 := Outside], {}, none, none);
    var s3 := Next(s2, CallWrite(2, zs));
    assert s3 == State(none, true, true, map[1 := ReadAsleep(1), 2 := Writing(zs)], {}, none, none);
    var s4 := Next(s3, Kill(2));
    assert s4 == State(none, true, true, map[1 := ReadAsleep(1), 2 := Writing(zs)], {2}, none, none);
    var s5 := Next(s4, RunWrite(2));
    assert s5 == State(zs[..PIPESIZE], true, true, map[1 := ReadAsleep(1), 2 := Outside], {2}, zs[..PIPESIZE], none);
    assert Fifo(s0) && Fifo(s1) && Fifo(s2) && Fifo(s3) && Fifo(s4);
    assert Run(s5, [], s5);
    hide Next, Run, Fifo, Start;
    RunCons(s4, RunWrite(2), [], s5);
    RunCons(s3, Kill(2), [RunWrite(2)], s5);
    RunCons(s2, CallWrite(2, zs), [Kill(2), RunWrite(2)], s5);
    RunCons(s1, RunRead(1), [CallWrite(2, zs), Kill(2), RunWrite(2)], s5);
    RunCons(s0, CallRead(1, 1), [RunRead(1), CallWrite(2, zs), Kill(2), RunWrite(2)], s5);
  }

  lemma RunCons(s: State, a: Step, rest: seq<Step>, t: State)
    requires Fifo(s) && Enabled(s, a) && Run(Next(s, a), rest, t)
    ensures Run(s, [a] + rest, t)
  {
    assert ([a] + rest)[1..] == rest;
  }
}
