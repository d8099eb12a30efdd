// The circular doubly linked list of buffers in bio.c.  Nodes are numbered 0 .. head - 1 and
// the list head has number `head`; prev and next are the two link fields.
module BufRing {
  type Links = seq<nat>

  // The i-th node on a walk from the head along the ring `order` and back to the head.
  function At(order: seq<nat>, head: nat, i: nat): nat
    requires i <= |order| + 1
  {
    if i == 0 || i == |order| + 1 then head else order[i - 1]
  }

  predicate Members(order: seq<nat>, head: nat) {
    && (forall i :: 0 <= i < |order| ==> order[i] < head)
    && (forall i, j :: 0 <= i < j < |order| ==> order[i] != order[j])
  }

  // Both link fields walk exactly the ring `order`, most recently used first.
  ghost predicate Linked(order: seq<nat>, head: nat, p: Links, n: Links) {
    && |p| == |n| == head + 1
    && Members(order, head)
    && (forall i {:trigger n[At(order, head, i)]} :: 0 <= i <= |order| ==>
          n[At(order, head, i)] == At(order, head, i + 1))
    && (forall i {:trigger p[At(order, head, i)]} :: 1 <= i <= |order| + 1 ==>
          p[At(order, head, i)] == At(order, head, i - 1))
  }

  function Without(order: seq<nat>, k: nat): seq<nat>
    requires k < |order|
  {
    order[..k] + order[k + 1..]
  }

  lemma AtInjective(order: seq<nat>, head: nat, i: nat, j: nat)
    requires Members(order, head) && i <= |order| + 1 && j <= |order| + 1
    ensures At(order, head, i) == At(order, head, j)
            <==> i == j || (i in {0, |order| + 1} && j in {0, |order| + 1})
  {
  }

  lemma AtWithout(order: seq<nat>, head: nat, k: nat, i: nat)
    requires k < |order| && i <= |order|
    ensures At(Without(order, k), head, i) == At(order, head, if i <= k then i else i + 1)
  {
  }

  // b = order[k] leaves the ring: its neighbours are linked to each other.
  lemma UnlinkNext(order: seq<nat>, head: nat, p: Links, n: Links, k: nat)
    requires Linked(order, head, p, n) && k < |order|
    ensures p[order[k]] == At(order, head, k) <= head && n[order[k]] == At(order, head, k + 2) <= head
    ensures forall i {:trigger At(Without(order, k), head, i)} :: 0 <= i < |order| ==>
              n[At(order, head, k) := At(order, head, k + 2)][At(Without(order, k), head, i)]
              == At(Without(order, k), head, i + 1)
  {
    assert At(order, head, k + 1) == order[k];
    var o := Without(order, k);
    forall i | 0 <= i < |order|
      ensures n[At(order, head, k) := At(order, head, k + 2)][At(o, head, i)] == At(o, head, i + 1)
    {
      AtWithout(order, head, k, i);
      AtWithout(order, head, k, i + 1);
      AtInjective(order, head, if i <= k then i else i + 1, k);
    }
  }

  lemma UnlinkPrev(order: seq<nat>, head: nat, p: Links, n: Links, k: nat)
    requires Linked(order, head, p, n) && k < |order|
    ensures At(order, head, k) <= head && At(order, head, k + 2) <= head
    ensures forall i {:trigger At(Without(order, k), head, i)} :: 1 <= i <= |order| ==>
              p[At(order, head, k + 2) := At(order, head, k)][At(Without(order, k), head, i)]
              == At(Without(order, k), head, i - 1)
  {
    var o := Without(order, k);
    forall i | 1 <= i <= |order|
      ensures p[At(order, head, k + 2) := At(order, head, k)][At(o, head, i)] == At(o, head, i - 1)
    {
      AtWithout(order, head, k, i);
      AtWithout(order, head, k, i - 1);
      AtInjective(order, head, if i <= k then i else i + 1, k + 2);
    }
  }

  lemma UnlinkKeeps(order: seq<nat>, head: nat, p: Links, n: Links, k: nat)
    requires Linked(order, head, p, n) && k < |order|
    ensures p[order[k]] <= head && n[order[k]] <= head
    ensures Linked(Without(order, k), head, p[n[order[k]] := p[order[k]]], n[p[order[k]] := n[order[k]]])
  {
    UnlinkNext(order, head, p, n, k);
    UnlinkPrev(order, head, p, n, k);
  }

  // b enters the ring right after the head.
  lemma PushFrontKeeps(order: seq<nat>, head: nat, p: Links, n: Links, b: nat)
    requires Linked(order, head, p, n) && b < head && b !in order
    ensures n[head] <= head && n[head] != b
    ensures var p1 := p[b := head]; var n1 := n[b := n[head]];
      Linked([b] + order, head, p1[n1[head] := b], n1[head := b])
  {
    var f := n[head];
    assert At(order, head, 0) == head;
    assert f == At(order, head, 1);
    var p1, n1 := p[b := head], n[b := f];
    var o := [b] + order;
    var p2, n2 := p1[f := b], n1[head := b];
    forall i | 0 <= i <= |o| + 1
      ensures At(o, head, i) == if i == 0 then head else if i == 1 then b else At(order, head, i - 1)
    {
    }
    forall i | 0 <= i <= |o| ensures n2[At(o, head, i)] == At(o, head, i + 1) {
      if i > 1 {
        assert n[At(order, head, i - 1)] == At(order, head, i);
        AtInjective(order, head, i - 1, 0);
      }
    }
    forall i | 1 <= i <= |o| + 1 ensures p2[At(o, head, i)] == At(o, head, i - 1) {
      if i > 1 {
        assert p[At(order, head, i - 1)] == At(order, head, i - 2);
        AtInjective(order, head, i - 1, 1);
      }
    }
  }

  function MovedToFront(order: seq<nat>, k: nat): (o: seq<nat>)
    requires k < |order|
  {
    [order[k]] + Without(order, k)
  }

  // Every node is on the ring.
  ghost predicate Full(order: seq<nat>, head: nat) {
    forall b: nat :: b < head ==> b in order
  }

  lemma MovedToFrontFull(order: seq<nat>, head: nat, k: nat)
    requires Full(order, head) && k < |order|
    ensures Full(MovedToFront(order, k), head)
  {
    forall b: nat | b < head ensures b in MovedToFront(order, k) {
      assert b in order;
      var i :| 0 <= i < |order| && order[i] == b;
      if i != k {
        assert Without(order, k)[if i < k then i else i - 1] == b;
      }
    }
  }

  // The moved node comes first, the others follow in the order they had.
  lemma MovedToFrontAt(order: seq<nat>, k: nat, i: nat)
    requires k < |order| && i < |order|
    ensures var o := MovedToFront(order, k);
      |o| == |order| && o[0] == order[k] && (0 < i <= k ==> o[i] == order[i - 1]) && (k < i ==> o[i] == order[i])
  {
  }

  class Ring {
    const head: nat
    const prev: array<nat>
    const next: array<nat>
    ghost var order: seq<nat>   // most recently used first

    ghost predicate Valid()
      reads this, prev, next
    {
      prev != next && |order| == head && Full(order, head) && Linked(order, head, prev[..], next[..])
    }

    // binit: each buffer in turn is pushed right behind the head.
    constructor (n: nat)
      ensures Valid() && fresh(prev) && fresh(next)
      ensures head == n && order == seq(n, i => n - 1 - i)
    {
      head := n;
      prev := new nat[n + 1];
      next := new nat[n + 1];
      order := [];
      new;
      prev[n] := n;
      next[n] := n;
      var b := 0;
      while b < n
        invariant 0 <= b <= n
        invariant Linked(order, head, prev[..], next[..])
        invariant order == seq(b, i => b - 1 - i)
        modifies this, prev, next
      {
        PushFront(b);
        b := b + 1;
      }
      forall c: nat | c < n ensures c in order {
        assert order[n - 1 - c] == c;
      }
    }

    method PushFront(b: nat)
      requires prev != next && Linked(order, head, prev[..], next[..])
      requires b < head && b !in order
      modifies this`order, prev, next
      ensures order == [b] + old(order) && Linked(order, head, prev[..], next[..])
    {
      PushFrontKeeps(order, head, prev[..], next[..], b);
      next[b] := next[head];
      prev[b] := head;
      prev[next[head]] := b;
      next[head] := b;
      order := [b] + order;
    }

    method Unlink(b: nat, ghost k: nat)
      requires prev != next && Linked(order, head, prev[..], next[..])
      requires k < |order| && order[k] == b
      modifies this`order, prev, next
      ensures order == Without(old(order), k) && Linked(order, head, prev[..], next[..])
      ensures b < head && b !in order
    {
      UnlinkKeeps(order, head, prev[..], next[..], k);
      prev[next[b]] := prev[b];
      next[prev[b]] := next[b];
      order := Without(order, k);
    }

    // The tail of brelse: b becomes the most recently used buffer.
    method MoveToFront(b: nat, ghost k: nat)
      requires Valid() && k < |order| && order[k] == b
      modifies this`order, prev, next
      ensures Valid() && order == MovedToFront(old(order), k)
    {
      MovedToFrontFull(order, head, k);
      Unlink(b, k);
      PushFront(b);
    }
  }
}
