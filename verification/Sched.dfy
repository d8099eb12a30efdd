// Scheduling and wait lists of Cosmos on one CPU (krlsched.c, krlwaitlist.c): run lists by priority,
// wait lists, and every thread in exactly one place.
module Sched {
  import opened Params
  import opened RunQueue

  const PRITY_MAX: nat := 64
  const TDSTUS_RUN: nat := 0
  const TDSTUS_WAIT: nat := 4

  // Where a thread is: on the run list of its priority (or its current thread), or on a wait list.
  datatype Place = Running | WaitingOn(w: nat)

  ghost predicate ListsOk(run: seq<RunList>, waits: seq<WaitList>) {
    && |run| == PRITY_MAX
    && (forall k :: 0 <= k < |run| ==> RunOk(run[k]))
    && (forall w :: 0 <= w < |waits| ==> WaitOk(waits[w]))
  }

  predicate ThreadOk(run: seq<RunList>, waits: seq<WaitList>, prio: map<nat, nat>, place: map<nat, Place>, t: nat)
    requires |run| == PRITY_MAX && t in prio && t in place
  {
    && prio[t] < PRITY_MAX
    && match place[t]
       case Running => OnRun(run[prio[t]], t)
       case WaitingOn(w) => w < |waits| && t in waits[w].list
  }

  // Each thread is in exactly one place: the one that place names, and nowhere else.
  ghost predicate Placed(run: seq<RunList>, waits: seq<WaitList>, prio: map<nat, nat>, place: map<nat, Place>, idle: nat) {
    && |run| == PRITY_MAX && place.Keys == prio.Keys && idle !in prio
    && (forall t :: t in prio ==> ThreadOk(run, waits, prio, place, t))
    && RunOnly(run, prio, place) && WaitOnly(waits, prio, place)
  }

  ghost predicate RunOnly(run: seq<RunList>, prio: map<nat, nat>, place: map<nat, Place>)
    requires place.Keys == prio.Keys
  {
    forall k, t :: 0 <= k < |run| && OnRun(run[k], t) ==> t in prio && prio[t] == k && place[t] == Running
  }

  ghost predicate WaitOnly(waits: seq<WaitList>, prio: map<nat, nat>, place: map<nat, Place>)
    requires place.Keys == prio.Keys
  {
    forall w, t :: 0 <= w < |waits| && t in waits[w].list ==> t in prio && place[t] == WaitingOn(w)
  }

  // Thread t enters or leaves level k.
  lemma RunOnlyMoves(run: seq<RunList>, prio: map<nat, nat>, place: map<nat, Place>, k: nat, r: RunList, t: nat, at: Place)
    requires place.Keys == prio.Keys && RunOnly(run, prio, place) && k < |run| && t in prio && prio[t] == k
    requires forall u :: OnRun(r, u) <==> if u == t then at == Running else OnRun(run[k], u)
    ensures RunOnly(run[k := r], prio, place[t := at])
  {
    hide OnRun;
  }

  // Thread t enters or leaves wait list w.
  lemma WaitOnlyMoves(waits: seq<WaitList>, prio: map<nat, nat>, place: map<nat, Place>, w: nat, x: WaitList, t: nat, at: Place)
    requires place.Keys == prio.Keys && WaitOnly(waits, prio, place) && w < |waits| && t in prio
    requires at == WaitingOn(w) ==> place[t] == Running
    requires at == Running ==> place[t] == WaitingOn(w)
    requires at == Running || at == WaitingOn(w)
    requires forall u :: u in x.list <==> if u == t then at == WaitingOn(w) else u in waits[w].list
    ensures WaitOnly(waits[w := x], prio, place[t := at])
  {
  }

  // ---- which level is served ----

  // The lowest numbered level with threads; PRITY_MAX if there is none.
  function Level(run: seq<RunList>, from: nat): (k: nat)
    requires from <= |run|
    ensures from <= k <= |run|
    ensures k < |run| ==> Order(run[k]) != []
    ensures forall j :: from <= j < k ==> Order(run[j]) == []
    decreases |run| - from
  {
    if from == |run| || Order(run[from]) != [] then from else Level(run, from + 1)
  }

  lemma PlacedSelect(run: seq<RunList>, waits: seq<WaitList>, prio: map<nat, nat>, place: map<nat, Place>, idle: nat, k: nat)
    requires ListsOk(run, waits) && Placed(run, waits, prio, place, idle) && k < |run| && Order(run[k]) != []
    ensures var run' := run[k := Selected(run[k])]; ListsOk(run', waits) && Placed(run', waits, prio, place, idle)
  {
    SelectRotates(run[k]);
    hide OnRun, Selected, RunOk, WaitOk;
    var run' := run[k := Selected(run[k])];
    forall t | t in prio ensures ThreadOk(run', waits, prio, place, t) {
      assert ThreadOk(run, waits, prio, place, t);
    }
  }

  lemma ListsChange(run: seq<RunList>, waits: seq<WaitList>, k: nat, r: RunList, w: nat, x: WaitList)
    requires ListsOk(run, waits) && k < |run| && w < |waits| && RunOk(r) && WaitOk(x)
    ensures ListsOk(run[k := r], waits[w := x])
  {
    hide RunOk, WaitOk;
  }

  // Every other thread stays where it is.
  lemma ThreadsMove(run: seq<RunList>, waits: seq<WaitList>, prio: map<nat, nat>, place: map<nat, Place>, t: nat, at: Place,
                    r: RunList, w: nat, x: WaitList)
    requires |run| == PRITY_MAX && place.Keys == prio.Keys && t in prio && prio[t] < |run| && w < |waits|
    requires forall u :: u in prio ==> ThreadOk(run, waits, prio, place, u)
    requires forall u :: OnRun(r, u) <==> if u == t then at == Running else OnRun(run[prio[t]], u)
    requires forall u :: u in x.list <==> if u == t then at == WaitingOn(w) else u in waits[w].list
    requires at == Running || at == WaitingOn(w)
    ensures forall u :: u in prio ==> ThreadOk(run[prio[t] := r], waits[w := x], prio, place[t := at], u)
  {
    hide OnRun;
    var run', waits', place' := run[prio[t] := r], waits[w := x], place[t := at];
    forall u | u in prio ensures ThreadOk(run', waits', prio, place', u) {
      assert ThreadOk(run, waits, prio, place, u);
    }
  }

  lemma RunsThere(run: seq<RunList>, waits: seq<WaitList>, prio: map<nat, nat>, place: map<nat, Place>, idle: nat, t: nat, w: nat)
    requires Placed(run, waits, prio, place, idle) && w < |waits|
    requires t in prio && prio[t] < |run| && run[prio[t]].curr == Some(t)
    ensures place[t] == Running && t !in waits[w].list
  {
    assert OnRun(run[prio[t]], t);
  }

  // The current thread of its level goes to wait list w.
  lemma PlacedWait(run: seq<RunList>, waits: seq<WaitList>, prio: map<nat, nat>, place: map<nat, Place>, idle: nat, t: nat, w: nat)
    requires ListsOk(run, waits) && Placed(run, waits, prio, place, idle)
    requires t in prio && prio[t] < |run| && run[prio[t]].curr == Some(t) && w < |waits|
    ensures t !in waits[w].list
    ensures var run' := run[prio[t] := Left(run[prio[t]])]; var waits' := waits[w := Pushed(waits[w], t)];
      ListsOk(run', waits') && Placed(run', waits', prio, place[t := WaitingOn(w)], idle)
  {
    RunsThere(run, waits, prio, place, idle, t, w);
    LeftOk(run[prio[t]]);
    PushedOk(waits[w], t);
    hide OnRun, Left, Pushed, RunOk, WaitOk, RunOnly, WaitOnly, ThreadOk;
    ListsChange(run, waits, prio[t], Left(run[prio[t]]), w, Pushed(waits[w], t));
    ThreadsMove(run, waits, prio, place, t, WaitingOn(w), Left(run[prio[t]]), w, Pushed(waits[w], t));
    RunOnlyMoves(run, prio, place, prio[t], Left(run[prio[t]]), t, WaitingOn(w));
    WaitOnlyMoves(waits, prio, place, w, Pushed(waits[w], t), t, WaitingOn(w));
    hide ListsOk;
  }

  lemma WaitsThere(run: seq<RunList>, waits: seq<WaitList>, prio: map<nat, nat>, place: map<nat, Place>, idle: nat, w: nat)
    requires Placed(run, waits, prio, place, idle) && w < |waits| && waits[w].list != []
    ensures var t := waits[w].list[0];
      t in waits[w].list && t in prio && prio[t] < |run| && place[t] == WaitingOn(w) && !OnRun(run[prio[t]], t)
  {
    assert waits[w].list[0] in waits[w].list;
    assert ThreadOk(run, waits, prio, place, waits[w].list[0]);
  }

  // The first thread of wait list w goes to the end of its run list.
  lemma PlacedUp(run: seq<RunList>, waits: seq<WaitList>, prio: map<nat, nat>, place: map<nat, Place>, idle: nat, w: nat)
    requires ListsOk(run, waits) && Placed(run, waits, prio, place, idle) && w < |waits| && waits[w].list != []
    ensures var t := waits[w].list[0];
      && t in prio && prio[t] < |run| && waits[w].nr >= 1
      && var run' := run[prio[t] := Appended(run[prio[t]], t)]; var waits' := waits[w := Popped(waits[w])];
         ListsOk(run', waits') && Placed(run', waits', prio, place[t := Running], idle)
  {
    var t := waits[w].list[0];
    WaitsThere(run, waits, prio, place, idle, w);
    EnteredOk(run[prio[t]], t);
    PoppedOk(waits[w]);
    hide OnRun, Appended, Popped, RunOk, WaitOk, RunOnly, WaitOnly, ThreadOk;
    ListsChange(run, waits, prio[t], Appended(run[prio[t]], t), w, Popped(waits[w]));
    ThreadsMove(run, waits, prio, place, t, Running, Appended(run[prio[t]], t), w, Popped(waits[w]));
    RunOnlyMoves(run, prio, place, prio[t], Appended(run[prio[t]], t), t, Running);
    WaitOnlyMoves(waits, prio, place, w, Popped(waits[w]), t, Running);
    hide ListsOk;
  }

  // A new thread enters at the front of its run list.
  lemma PlacedAdd(run: seq<RunList>, waits: seq<WaitList>, prio: map<nat, nat>, place: map<nat, Place>, idle: nat, t: nat, p: nat)
    requires ListsOk(run, waits) && Placed(run, waits, prio, place, idle) && t !in prio && t != idle && p < |run|
    ensures var run' := run[p := Prepended(run[p], t)];
      ListsOk(run', waits) && Placed(run', waits, prio[t := p], place[t := Running], idle)
  {
    assert !OnRun(run[p], t);
    EnteredOk(run[p], t);
    hide OnRun, Prepended, RunOk, WaitOk;
    var run' := run[p := Prepended(run[p], t)];
    var prio', place' := prio[t := p], place[t := Running];
    assert ListsOk(run', waits);
    hide ListsOk;
    forall u | u in prio' ensures ThreadOk(run', waits, prio', place', u) {
      if u != t { assert ThreadOk(run, waits, prio, place, u); }
    }
  }

  // All threads of wait list w, first to last, appended to their run lists.
  function AllUp(run: seq<RunList>, prio: map<nat, nat>, ts: seq<nat>): seq<RunList>
    requires forall t :: t in ts ==> t in prio && prio[t] < |run|
    decreases |ts|
  {
    if ts == [] then run
    else AllUp(run[prio[ts[0]] := Appended(run[prio[ts[0]]], ts[0])], prio, ts[1..])
  }

  // ---- selecting ----

  // krlsched_select_thread: who is chosen, and the run lists afterwards.
  function Select(run: seq<RunList>, idle: nat): (s: (nat, seq<RunList>))
    ensures |s.1| == |run|
  {
    var k := Level(run, 0);
    if k == |run| then (idle, run) else (Chosen(run[k]), run[k := Selected(run[k])])
  }

  function Selects(run: seq<RunList>, idle: nat, n: nat): (s: (seq<nat>, seq<RunList>))
    ensures |s.0| == n && |s.1| == |run|
  {
    if n == 0 then ([], run)
    else
      var (before, r) := Selects(run, idle, n - 1);
      var (t, r') := Select(r, idle);
      (before + [t], r')
  }

  lemma LevelIs(run: seq<RunList>, from: nat, k: nat)
    requires from <= k < |run| && Order(run[k]) != [] && forall j :: from <= j < k ==> Order(run[j]) == []
    ensures Level(run, from) == k
  {
  }

  // As long as nothing else happens, selects only turn the lowest numbered level with threads.
  lemma {:induction false} SelectsTurn(run: seq<RunList>, idle: nat, k: nat, n: nat)
    requires k == Level(run, 0) < |run| && RunOk(run[k])
    ensures Order(run[k]) != [] && Selects(run, idle, n) == (Picks(run[k], n).0, run[k := Picks(run[k], n).1])
  {
    if n > 0 {
      SelectsTurn(run, idle, k, n - 1);
      var q := Picks(run[k], n - 1).1;
      hide Order, Level;
      SelectAgain(run, idle, k, q);
      hide Select;
    } else {
      assert run == run[k := run[k]];
    }
  }

  // The level stays the lowest one with threads while it is turned.
  lemma SelectAgain(run: seq<RunList>, idle: nat, k: nat, q: RunList)
    requires k == Level(run, 0) < |run| && Order(q) != []
    ensures Select(run[k := q], idle) == (Chosen(q), run[k := Selected(q)])
  {
    var r := run[k := q];
    LevelIs(r, 0, k);
    hide Level, Order, Selected;
    assert r[k := Selected(q)] == run[k := Selected(q)];
  }

  // So in as many selects as the level has threads each of them runs once, and everything is as before.
  lemma EachRunsOnce(run: seq<RunList>, idle: nat, k: nat)
    requires k == Level(run, 0) < |run| && RunOk(run[k])
    ensures Order(run[k]) != [] && NoDup(Order(run[k]))
    ensures var s := Selects(run, idle, |Order(run[k])|);
      s.0 == Order(run[k]) && s.1 == run[k := s.1[k]] && Order(s.1[k]) == Order(run[k])
  {
    SelectsTurn(run, idle, k, |Order(run[k])|);
    FullTurn(run[k]);
  }

  // The running thread is the idle thread or the current one of its level.
  predicate CurrOk(run: seq<RunList>, prio: map<nat, nat>, currtd: nat, idle: nat) {
    currtd == idle || (currtd in prio && prio[currtd] < |run| && run[prio[currtd]].curr == Some(currtd))
  }

  lemma SelectCurrOk(run: seq<RunList>, waits: seq<WaitList>, prio: map<nat, nat>, place: map<nat, Place>, idle: nat)
    requires ListsOk(run, waits) && Placed(run, waits, prio, place, idle)
    ensures var s := Select(run, idle); CurrOk(s.1, prio, s.0, idle)
  {
    var k := Level(run, 0);
    if k < |run| {
      SelectRotates(run[k]);
      assert OnRun(run[k], Chosen(run[k]));
    }
  }

  class Kernel {
    var run: seq<RunList>             // sda_thdlst
    var waits: seq<WaitList>          // the kwlst_t in use
    var prio: map<nat, nat>           // td_priority
    var stus: map<nat, nat>           // td_stus
    var currtd: nat                   // sda_currtd
    const idle: nat                   // sda_cpuidle
    ghost var place: map<nat, Place>

    // init_krlsched: empty lists; the idle thread runs.
    constructor (i: nat, n: nat)
      ensures Settled() && idle == i && currtd == i && |waits| == n && prio == map[]
      ensures forall k :: 0 <= k < PRITY_MAX ==> run[k] == RunList([], None, 0)
    {
      idle, currtd := i, i;
      run := EmptyRuns(PRITY_MAX);
      waits := EmptyWaits(n);
      prio, stus, place := map[], map[], map[];
    }

    ghost predicate Valid()
      reads this
    {
      ListsOk(run, waits) && Placed(run, waits, prio, place, idle)
    }

    // Between two switches the running thread is idle or current; only krlsched_wait breaks this, and
    // the switch that follows restores it.
    ghost predicate Settled()
      reads this
    {
      Valid() && CurrOk(run, prio, currtd, idle)
    }

    // krlsched_select_thread: the lowest numbered level with threads turns by one.
    method SelectThread() returns (t: nat)
      requires Valid()
      modifies this`run
      ensures Valid() && (t, run) == Select(old(run), idle)
    {
      hide RunOk, WaitOk, Placed, Level, Order;
      var pity := 0;
      while pity < PRITY_MAX
        invariant 0 <= pity <= PRITY_MAX && run == old(run) && Valid()
        invariant Level(run, 0) == Level(run, pity)
      {
        LevelStep(run, pity);
        CountMeans(run[pity]);
        if run[pity].nr > 0 {
          PlacedSelect(run, waits, prio, place, idle, pity);
          ChosenIs(run[pity]);
          if run[pity].list != [] {
            var r := run[pity];
            var tdtmp := r.list[0];
            var rest := r.list[1..] + (if r.curr.Some? then [r.curr.value] else []);
            run := run[pity := r.(list := rest, curr := Some(tdtmp))];
            return tdtmp;
          }
          if run[pity].curr.Some? {
            assert run[pity := Selected(run[pity])] == run;
            return run[pity].curr.value;
          }
        }
        pity := pity + 1;
      }
      LevelStep(run, PRITY_MAX);
      return idle;
    }

    // krlschedul, the context switch being one step.
    method Schedul()
      requires Valid()
      modifies this`run, this`currtd
      ensures Settled() && (currtd, run) == Select(old(run), idle)
    {
      SelectCurrOk(run, waits, prio, place, idle);
      hide ListsOk, Placed, Select, CurrOk;
      currtd := SelectThread();
    }

    // krlschdclass_add_thread
    method AddThread(t: nat, p: nat)
      requires Valid() && t !in prio && t != idle && p < PRITY_MAX
      modifies this`run, this`prio, this`place
      ensures Valid() && (old(Settled()) ==> Settled())
      ensures prio == old(prio)[t := p] && run == old(run)[p := Prepended(old(run)[p], t)]
      ensures p < |run| && Order(run[p]) == [t] + Order(old(run)[p]) && Selected(run[p]).curr == Some(t)
    {
      hide RunOk, WaitOk, Placed;
      PlacedAdd(run, waits, prio, place, idle, t, p);
      EntersFront(run[p], t);
      run := run[p := run[p].(list := [t] + run[p].list, nr := run[p].nr + 1)];
      prio := prio[t := p];
      place := place[t := Running];
    }

    // krlsched_wait: the running thread leaves its run list for wait list w.
    method Wait(w: nat) returns (r: Result<()>)
      requires Settled() && currtd != idle && w < |waits|
      modifies this`run, this`waits, this`stus, this`place
      ensures r.Ok? && Valid() && |waits| == |old(waits)|
      ensures currtd in prio && prio[currtd] < |old(run)|
      ensures run == old(run)[prio[currtd] := Left(old(run)[prio[currtd]])]
      ensures waits == old(waits)[w := Pushed(old(waits)[w], currtd)]
      ensures stus == old(stus)[currtd := TDSTUS_WAIT]
    {
      hide WaitOk, Placed;
      var pity := prio[currtd];
      PlacedWait(run, waits, prio, place, idle, currtd, w);
      if pity >= PRITY_MAX || run[pity].nr < 1 {
        return Panic("krlsched_wait err");
      }
      stus := stus[currtd := TDSTUS_WAIT];
      var curr := run[pity].curr;
      if curr == Some(currtd) {
        curr := None;
      }
      run := run[pity := run[pity].(curr := curr, nr := run[pity].nr - 1)];
      waits := waits[w := WaitList([currtd] + waits[w].list, waits[w].nr + 1)];   // krlwlst_add_thread
      place := place[currtd := WaitingOn(w)];
      r := Ok(());
    }

    // krlwlst_del_thread: None stands for a null pointer.
    method DelThread(w: nat) returns (t: Option<nat>)
      requires w < |waits|
      modifies this`waits
      ensures old(waits)[w].list == [] || old(waits)[w].nr < 1 ==> t == None && waits == old(waits)
      ensures old(waits)[w].list != [] && old(waits)[w].nr >= 1 ==>
                t == Some(old(waits)[w].list[0]) && waits == old(waits)[w := Popped(old(waits)[w])]
    {
      if waits[w].list == [] || waits[w].nr < 1 {
        return None;
      }
      t := Some(waits[w].list[0]);
      waits := waits[w := WaitList(waits[w].list[1..], waits[w].nr - 1)];
    }

    // krlsched_up: the first thread of wait list w becomes runnable.
    method Up(w: nat) returns (r: Result<()>)
      requires Valid() && w < |waits|
      modifies this`run, this`waits, this`stus, this`place
      ensures r.Panic? <==> old(waits)[w].list == []
      ensures r.Panic? ==> run == old(run) && waits == old(waits) && stus == old(stus) && Valid()
      ensures old(Settled()) ==> Settled()
      ensures r.Ok? ==>
                var t := old(waits)[w].list[0];
                && t in prio && prio[t] < |old(run)| && Valid()
                && run == old(run)[prio[t] := Appended(old(run)[prio[t]], t)]
                && waits == old(waits)[w := Popped(old(waits)[w])]
                && stus == old(stus)[t := TDSTUS_RUN]
    {
      hide RunOk, WaitOk, Placed;
      if waits[w].list != [] {
        PlacedUp(run, waits, prio, place, idle, w);
      }
      var tdp := DelThread(w);
      if tdp.None? {
        return Panic("krlsched_up err");
      }
      var t := tdp.value;
      var pity := prio[t];
      if pity >= PRITY_MAX {
        return Panic("krlsched_up err");
      }
      stus := stus[t := TDSTUS_RUN];
      run := run[pity := run[pity].(list := run[pity].list + [t], nr := run[pity].nr + 1)];
      place := place[t := Running];
      r := Ok(());
    }

    // krlwlst_up: like krlsched_up, but nothing happens if nobody waits.
    method WlstUp(w: nat) returns (r: Result<()>)
      requires Valid() && w < |waits|
      modifies this`run, this`waits, this`stus, this`place
      ensures r.Ok? && Valid() && (old(Settled()) ==> Settled())
      ensures old(waits)[w].list == [] ==> run == old(run) && waits == old(waits) && stus == old(stus)
      ensures old(waits)[w].list != [] ==>
                var t := old(waits)[w].list[0];
                && t in prio && prio[t] < |old(run)|
                && run == old(run)[prio[t] := Appended(old(run)[prio[t]], t)]
                && waits == old(waits)[w := Popped(old(waits)[w])]
                && stus == old(stus)[t := TDSTUS_RUN]
    {
      hide ListsOk, Placed;
      if waits[w].list == [] {
        return Ok(());
      }
      r := Up(w);
    }

    // krlwlst_allup: it ends, because every turn takes one thread off the list.
    method Allup(w: nat) returns (r: Result<()>)
      requires Valid() && w < |waits|
      modifies this`run, this`waits, this`stus, this`place
      ensures r.Ok? && Valid() && (old(Settled()) ==> Settled()) && waits == old(waits)[w := WaitList([], 0)]
      ensures forall t :: t in old(waits)[w].list ==> t in prio && prio[t] < |old(run)|
      ensures run == AllUp(old(run), prio, old(waits)[w].list)
      ensures forall t :: t in old(waits)[w].list ==> t in stus && stus[t] == TDSTUS_RUN
    {
      hide ListsOk, Placed, AllUp;
      Waiters(run, waits, prio, place, idle, w);
      ghost var ts := waits[w].list;
      ghost var n := 0;
      r := Ok(());
      AllUpStart(run, prio, ts);
      while waits[w].list != []
        invariant r.Ok? && Valid() && (old(Settled()) ==> Settled()) && |waits| == |old(waits)| && |run| == |old(run)| && 0 <= n <= |ts|
        invariant waits[w].list == ts[n..] && waits == old(waits)[w := waits[w]]
        invariant AllUp(old(run), prio, ts) == AllUp(run, prio, ts[n..])
        invariant forall k :: 0 <= k < n ==> ts[k] in stus && stus[ts[k]] == TDSTUS_RUN
        decreases |waits[w].list|
      {
        AllUpStep(run, prio, ts, n);
        r := Up(w);
        n := n + 1;
      }
      AllUpEnd(run, prio);
      Emptied(run, waits, w);
    }
  }

  function EmptyRuns(n: nat): (r: seq<RunList>)
    ensures |r| == n && forall k :: 0 <= k < n ==> r[k] == RunList([], None, 0)
  {
    if n == 0 then [] else EmptyRuns(n - 1) + [RunList([], None, 0)]
  }

  function EmptyWaits(n: nat): (r: seq<WaitList>)
    ensures |r| == n && forall k :: 0 <= k < n ==> r[k] == WaitList([], 0)
  {
    if n == 0 then [] else EmptyWaits(n - 1) + [WaitList([], 0)]
  }

  lemma LevelStep(run: seq<RunList>, k: nat)
    requires k <= |run|
    ensures k == |run| ==> Level(run, k) == k
    ensures k < |run| ==> Level(run, k) == if Order(run[k]) != [] then k else Level(run, k + 1)
  {
  }

  lemma CountMeans(r: RunList)
    requires RunOk(r)
    ensures r.nr > 0 <==> Order(r) != []
    ensures r.nr > 0 ==> r.list != [] || r.curr.Some?
  {
  }

  lemma ChosenIs(r: RunList)
    requires Order(r) != []
    ensures Chosen(r) == if r.list != [] then r.list[0] else r.curr.value
    ensures r.list == [] ==> r.curr.Some?
  {
  }

  lemma Waiters(run: seq<RunList>, waits: seq<WaitList>, prio: map<nat, nat>, place: map<nat, Place>, idle: nat, w: nat)
    requires Placed(run, waits, prio, place, idle) && w < |waits|
    ensures forall t :: t in waits[w].list ==> t in prio && prio[t] < |run|
  {
    forall t | t in waits[w].list ensures t in prio && prio[t] < |run| {
      assert ThreadOk(run, waits, prio, place, t);
    }
  }

  lemma AllUpStart(run: seq<RunList>, prio: map<nat, nat>, ts: seq<nat>)
    requires forall t :: t in ts ==> t in prio && prio[t] < |run|
    ensures AllUp(run, prio, ts) == AllUp(run, prio, ts[0..])
  {
    assert ts[0..] == ts;
  }

  lemma AllUpStep(run: seq<RunList>, prio: map<nat, nat>, ts: seq<nat>, n: nat)
    requires n < |ts| && forall t :: t in ts ==> t in prio && prio[t] < |run|
    ensures ts[n..] != [] && ts[n..][0] == ts[n] && ts[n..][1..] == ts[n + 1..]
    ensures AllUp(run, prio, ts[n..]) == AllUp(run[prio[ts[n]] := Appended(run[prio[ts[n]]], ts[n])], prio, ts[n + 1..])
  {
  }

  lemma AllUpEnd(run: seq<RunList>, prio: map<nat, nat>)
    ensures AllUp(run, prio, []) == run
  {
  }

  lemma Emptied(run: seq<RunList>, waits: seq<WaitList>, w: nat)
    requires ListsOk(run, waits) && w < |waits| && waits[w].list == []
    ensures waits[w] == WaitList([], 0)
  {
  }
}
