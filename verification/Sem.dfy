// Counting semaphores of Cosmos on one CPU (krlsem.c).  krlsem_down is a retry loop that gives up the
// CPU in between; DownTurn is one turn of it.
module Sem {
  import opened Params
  import opened RunQueue
  import opened Sched

  class Sem {
    const k: Kernel
    const w: nat                 // sem_waitlst
    var count: int               // sem_count
    ghost var initial: int
    ghost var ups: nat           // completed krlsem_up
    ghost var downs: nat         // completed krlsem_down

    // krlsem_t_init and krlsem_set_sem, on a wait list of its own.
    constructor (kernel: Kernel, wait: nat, n: int)
      requires kernel.Settled() && wait < |kernel.waits| && kernel.waits[wait].list == [] && n >= 0
      ensures Valid() && k == kernel && w == wait && count == n && initial == n && ups == 0 && downs == 0
    {
      k, w, count := kernel, wait, n;
      initial, ups, downs := n, 0, 0;
    }

    // With sem_lock free: the count is what was there and came in less what went out, never negative,
    // and while there is something to take nobody waits.
    ghost predicate Valid()
      reads this, k
    {
      && k.Settled() && w < |k.waits|
      && count == initial + ups - downs && count >= 0
      && (count >= 1 ==> k.waits[w].list == [])
    }

    // One turn of krlsem_down by the running thread: it gets through, or waits and another thread runs.
    method DownTurn() returns (r: Result<bool>)
      requires Valid() && k.currtd != k.idle
      modifies this`count, this`downs, k`run, k`waits, k`stus, k`place, k`currtd
      ensures Valid() && r.Ok? && r.value == (old(count) >= 1)
      ensures r.value ==>
                && count == old(count) - 1 && downs == old(downs) + 1
                && k.run == old(k.run) && k.waits == old(k.waits) && k.currtd == old(k.currtd)
      ensures !r.value ==>
                && count == old(count) && downs == old(downs) && old(k.currtd) in k.prio
                && k.waits == old(k.waits)[w := Pushed(old(k.waits)[w], old(k.currtd))]
                && old(k.currtd) in k.waits[w].list
                && var p := k.prio[old(k.currtd)];
                && p < |old(k.run)|
                && (k.currtd, k.run) == Select(old(k.run)[p := Left(old(k.run)[p])], k.idle)
    {
      hide ListsOk, Placed, Selected, Left, Level, Select;
      if count < 1 {
        var t := k.currtd;
        var e := k.Wait(w);
        assert k.waits[w].list[0] == t;
        k.Schedul();
        return Ok(false);
      }
      count := count - 1;
      downs := downs + 1;
      r := Ok(true);
    }

    // krlsem_up: every waiting thread becomes runnable again.
    method Up() returns (r: Result<()>)
      requires Valid()
      modifies this`count, this`ups, k`run, k`waits, k`stus, k`place
      ensures Valid() && r.Ok? && count == old(count) + 1 && ups == old(ups) + 1
      ensures k.waits == old(k.waits)[w := WaitList([], 0)]
      ensures forall t :: t in old(k.waits)[w].list ==> t in k.prio && k.prio[t] < |old(k.run)| && t in k.stus && k.stus[t] == TDSTUS_RUN
      ensures k.run == AllUp(old(k.run), k.prio, old(k.waits)[w].list)
    {
      hide ListsOk, Placed, AllUp;
      count := count + 1;
      ups := ups + 1;
      if count < 1 {
        return Panic("sem up err");
      }
      r := k.Allup(w);
    }
  }

  // What waking in that order means for one run list: the waiters of its level, the last to wait
  // first, follow those already there.
  function OfLevel(prio: map<nat, nat>, ts: seq<nat>, p: nat): seq<nat>
    requires forall t :: t in ts ==> t in prio
  {
    if ts == [] then [] else (if prio[ts[0]] == p then [ts[0]] else []) + OfLevel(prio, ts[1..], p)
  }

  lemma {:induction false} AllUpOrder(run: seq<RunList>, prio: map<nat, nat>, ts: seq<nat>, p: nat)
    requires (forall t :: t in ts ==> t in prio && prio[t] < |run|) && p < |run|
    ensures |AllUp(run, prio, ts)| == |run|
    ensures AllUp(run, prio, ts)[p].list == run[p].list + OfLevel(prio, ts, p)
    ensures AllUp(run, prio, ts)[p].curr == run[p].curr
    decreases |ts|
  {
    if ts == [] {
      assert run[p].list + [] == run[p].list;
    } else {
      var run1 := run[prio[ts[0]] := Appended(run[prio[ts[0]]], ts[0])];
      AllUpOrder(run1, prio, ts[1..], p);
      assert run[p].list + ((if prio[ts[0]] == p then [ts[0]] else []) + OfLevel(prio, ts[1..], p))
          == run1[p].list + OfLevel(prio, ts[1..], p);
    }
  }
}
