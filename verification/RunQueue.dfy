// One priority level of the Cosmos scheduler (krlsched.c): a list of threads and the one taken from it
// last.  Selecting is a left rotation, so threads of one level take turns.
module RunQueue {
  import opened Params

  // thrdlst_t and kwlst_t; threads are numbers.
  datatype RunList = RunList(list: seq<nat>, curr: Option<nat>, nr: int)

  datatype WaitList = WaitList(list: seq<nat>, nr: int)

  ghost predicate NoDup(s: seq<nat>) {
    forall j, k :: 0 <= j < k < |s| ==> s[j] != s[k]
  }

  // tdl_nr counts the list and the current thread, which is not on the list.
  ghost predicate RunOk(r: RunList) {
    && NoDup(r.list) && (r.curr.Some? ==> r.curr.value !in r.list)
    && r.nr == |r.list| + if r.curr.Some? then 1 else 0
  }

  ghost predicate WaitOk(w: WaitList) { NoDup(w.list) && w.nr == |w.list| }

  predicate OnRun(r: RunList, t: nat) { t in r.list || r.curr == Some(t) }

  // The threads of a level in the order in which they will be chosen.
  function Order(r: RunList): seq<nat> {
    r.list + if r.curr.Some? then [r.curr.value] else []
  }

  // krlsched_select_thread at a level that has threads.
  function Selected(r: RunList): RunList {
    if r.list != [] then
      r.(list := r.list[1..] + (if r.curr.Some? then [r.curr.value] else []), curr := Some(r.list[0]))
    else r
  }

  function Chosen(r: RunList): nat
    requires Order(r) != []
  {
    Order(r)[0]
  }

  lemma SelectRotates(r: RunList)
    requires RunOk(r) && Order(r) != []
    ensures RunOk(Selected(r)) && Selected(r).curr == Some(Chosen(r))
    ensures Order(Selected(r)) == Order(r)[1..] + [Order(r)[0]]
    ensures forall t :: OnRun(Selected(r), t) <==> OnRun(r, t)
  {
    if r.list != [] {
      var q := Selected(r);
      assert r.list == [r.list[0]] + r.list[1..];
      assert Order(q) == Order(r)[1..] + [Order(r)[0]];
      forall j, k | 0 <= j < k < |q.list| ensures q.list[j] != q.list[k] {
        assert q.list[j] == r.list[j + 1];
        if k < |r.list| - 1 { assert q.list[k] == r.list[k + 1]; }
      }
    }
  }

  // n selects in a row: what they choose, and what is left.
  function Picks(r: RunList, n: nat): (p: (seq<nat>, RunList))
    requires RunOk(r) && Order(r) != []
    ensures |p.0| == n && RunOk(p.1) && Order(p.1) != []
  {
    if n == 0 then ([], r)
    else
      var (before, q) := Picks(r, n - 1);
      SelectRotates(q);
      (before + [Chosen(q)], Selected(q))
  }

  // In as many selects as there are threads each one is chosen once, in order.
  lemma {:induction false} RoundRobin(r: RunList, n: nat)
    requires RunOk(r) && Order(r) != [] && n <= |Order(r)|
    ensures Picks(r, n).0 == Order(r)[..n]
    ensures Order(Picks(r, n).1) == Order(r)[n..] + Order(r)[..n]
  {
    if n == 0 {
      assert Order(r)[0..] + Order(r)[..0] == Order(r);
    } else {
      RoundRobin(r, n - 1);
      var q := Picks(r, n - 1).1;
      SelectRotates(q);
      var o := Order(r);
      assert Order(q) == o[n - 1..] + o[..n - 1] && Order(q)[0] == o[n - 1];
      assert o[..n] == o[..n - 1] + [o[n - 1]];
      assert (o[n - 1..] + o[..n - 1])[1..] == o[n..] + o[..n - 1];
      assert Order(Selected(q)) == o[n..] + o[..n];
    }
  }

  lemma FullTurn(r: RunList)
    requires RunOk(r) && Order(r) != []
    ensures Picks(r, |Order(r)|).0 == Order(r) && Order(Picks(r, |Order(r)|).1) == Order(r)
    ensures NoDup(Order(r))
  {
    RoundRobin(r, |Order(r)|);
  }

  // ---- leaving and entering ----

  // krlsched_wait takes the current thread out.
  function Left(r: RunList): RunList { r.(curr := None, nr := r.nr - 1) }

  // krlsched_up appends, krlschdclass_add_thread puts in front.
  function Appended(r: RunList, t: nat): RunList { r.(list := r.list + [t], nr := r.nr + 1) }

  function Prepended(r: RunList, t: nat): RunList { r.(list := [t] + r.list, nr := r.nr + 1) }

  lemma LeftOk(r: RunList)
    requires RunOk(r) && r.curr.Some?
    ensures RunOk(Left(r)) && forall t :: OnRun(Left(r), t) <==> OnRun(r, t) && t != r.curr.value
  {
  }

  lemma EnteredOk(r: RunList, t: nat)
    requires RunOk(r) && !OnRun(r, t)
    ensures RunOk(Appended(r, t)) && RunOk(Prepended(r, t))
    ensures forall u :: OnRun(Appended(r, t), u) <==> OnRun(r, u) || u == t
    ensures forall u :: OnRun(Prepended(r, t), u) <==> OnRun(r, u) || u == t
  {
  }

  lemma EntersFront(r: RunList, t: nat)
    ensures var q := Prepended(r, t); Order(q) == [t] + Order(r) && Selected(q).curr == Some(t)
  {
  }

  // A new thread is chosen by the very next select of its level, and then everybody else as before.
  lemma EntersFirst(r: RunList, t: nat, n: nat)
    requires RunOk(r) && !OnRun(r, t) && n <= |Order(r)|
    ensures var q := Prepended(r, t);
      && RunOk(q) && Order(q) != [] && Selected(q).curr == Some(t)
      && Picks(q, n + 1).0 == [t] + Order(r)[..n]
  {
    var q := Prepended(r, t);
    EnteredOk(r, t);
    EntersFront(r, t);
    RoundRobin(q, n + 1);
  }

  // A woken thread is chosen when all that were waiting for their turn have had it.
  lemma EntersLast(r: RunList, t: nat)
    requires RunOk(r) && !OnRun(r, t)
    ensures var q := Appended(r, t);
      RunOk(q) && Order(q) != [] && Picks(q, |r.list| + 1).0 == r.list + [t]
  {
    var q := Appended(r, t);
    EnteredOk(r, t);
    RoundRobin(q, |r.list| + 1);
    assert Order(q)[..|r.list| + 1] == r.list + [t];
  }

  // The threads left behind by one that goes to sleep keep their turns.
  lemma LeavesOrder(r: RunList, n: nat)
    requires RunOk(r) && r.curr.Some? && n <= |r.list| && r.list != []
    ensures RunOk(Left(r)) && Order(Left(r)) != [] && Picks(Left(r), n).0 == Picks(r, n).0 == r.list[..n]
  {
    LeftOk(r);
    RoundRobin(r, n);
    RoundRobin(Left(r), n);
    assert Order(r)[..n] == r.list[..n] == Order(Left(r))[..n];
  }

  // krlwlst_add_thread puts in front, krlwlst_del_thread takes from the front: last in, first out.
  function Pushed(w: WaitList, t: nat): WaitList { WaitList([t] + w.list, w.nr + 1) }

  function Popped(w: WaitList): WaitList
    requires w.list != []
  {
    WaitList(w.list[1..], w.nr - 1)
  }

  lemma PushedOk(w: WaitList, t: nat)
    requires WaitOk(w) && t !in w.list
    ensures WaitOk(Pushed(w, t)) && Popped(Pushed(w, t)) == w
    ensures forall u :: u in Pushed(w, t).list <==> u in w.list || u == t
  {
    assert Pushed(w, t).list[1..] == w.list;
  }

  lemma PoppedOk(w: WaitList)
    requires WaitOk(w) && w.list != []
    ensures WaitOk(Popped(w)) && w.nr >= 1
    ensures forall u :: u in Popped(w).list <==> u in w.list && u != w.list[0]
  {
    assert w.list == [w.list[0]] + w.list[1..];
  }
}
