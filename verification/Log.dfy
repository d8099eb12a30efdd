// The transaction log over the buffer cache (log.c): log_write pins blocks, commit copies them
// to the log, writes the header, installs them and erases the log.
module Log {
  import opened Params
  import opened Blocks
  import opened LogRecovery
  import opened Bio

  predicate Pins(s: seq<Buf>, i: nat, b: nat) {
    Holds(s, i, b) && s[i].dirty
  }

  predicate Distinct(bs: seq<Word>) {
    forall i, j :: 0 <= i < j < |bs| ==> bs[i] != bs[j]
  }

  // A buffer is pinned exactly when the in-memory header lists its block.
  ghost predicate PinsMatch(s: seq<Buf>, bs: seq<Word>) {
    && (forall b: Word :: b in bs ==> exists i: nat :: Pins(s, i, b))
    && (forall i :: 0 <= i < |s| && s[i].dirty ==> s[i].blockno in bs)
  }

  // Nobody holds a buffer of block b.
  ghost predicate Free(s: seq<Buf>, b: nat) {
    forall i: nat :: Caches(s, i, ROOTDEV, b) ==> !s[i].locked
  }

  // Enough buffers for bread(first) followed by bread(second), both held.
  ghost predicate Supply(s: seq<Buf>, second: nat) {
    || (exists i :: 0 <= i < |s| && Usable(s[i]) && exists j: nat :: Pins(s, j, second))
    || (exists i, j :: 0 <= i < |s| && 0 <= j < |s| && i != j && Usable(s[i]) && Usable(s[j]))
  }

  // A block that is neither pinned nor held reads as it is on the disk.
  lemma CleanContent(s: seq<Buf>, d: Disk, b: nat)
    requires Coherent(s, d) && b < |d|
    requires forall i: nat :: Holds(s, i, b) ==> !s[i].dirty && !s[i].locked
    ensures Content(s, d, b) == d[b]
  {
    if i: nat :| Holds(s, i, b) {
      ContentHeld(s, d, i, b);
      assert BufOk(s[i], d);
    } else {
      ContentNotHeld(s, d, b);
    }
  }

  // What copying block `from` to block `to` through the cache leaves of the other buffers.
  ghost predicate CopyFrame(s: seq<Buf>, s': seq<Buf>, to: nat) {
    && |s'| == |s|
    && (forall k :: 0 <= k < |s| ==> s'[k].refcnt == s[k].refcnt && s'[k].locked == s[k].locked)
    && (forall k :: 0 <= k < |s| ==> (s'[k].dirty <==> s[k].dirty && s[k].blockno != to))
    && (forall k :: 0 <= k < |s| && s'[k].dirty ==> s'[k] == s[k])
    && (forall k :: 0 <= k < |s| && s[k].locked ==> s'[k] == s[k])
  }

  // Buffer x becomes y, held by a reader of block b.
  predicate Taken(x: Buf, y: Buf, b: nat) {
    && y == Buf(ROOTDEV, b, true, x.dirty, true, x.refcnt + 1, y.data)
    && !x.locked
    && ((x.dev == ROOTDEV && x.blockno == b) || Usable(x))
  }

  // With one buffer taken, the other block can still be taken too.
  lemma AfterTake(s: seq<Buf>, s1: seq<Buf>, i: nat, first: nat, second: nat)
    requires i < |s| && |s1| == |s| && s1 == s[i := s1[i]] && Taken(s[i], s1[i], first) && first != second
    requires Free(s, second) && Supply(s, second)
    ensures Free(s1, second)
    ensures (exists k: nat :: Holds(s1, k, second)) || exists k :: 0 <= k < |s| && Usable(s1[k])
  {
    forall k: nat | Caches(s1, k, ROOTDEV, second) ensures !s1[k].locked {
      assert k != i && Caches(s, k, ROOTDEV, second);
    }
    if k: nat :| Pins(s, k, second) {
      assert Caches(s, k, ROOTDEV, second) && k != i;
      assert Holds(s1, k, second);
    } else {
      var a, b :| 0 <= a < |s| && 0 <= b < |s| && a != b && Usable(s[a]) && Usable(s[b]);
      assert Usable(s1[if a == i then b else a]);
    }
  }

  function Released(x: Buf): Buf
    requires x.refcnt > 0
  {
    x.(locked := false, refcnt := x.refcnt - 1)
  }

  lemma CopyNet(s: seq<Buf>, s2: seq<Buf>, s': seq<Buf>, d: Disk, f: nat, t: nat, from: nat, to: nat)
    requires Coherent(s, d) && Coherent(s2, d) && f < |s| && t < |s| && f != t && from != to && from < |d|
    requires |s2| == |s| && s2 == s[f := s2[f]][t := s2[t]]
    requires Taken(s[f], s2[f], from) && Taken(s[t], s2[t], to)
    requires s2[f].data == Content(s, d, from)
    requires s' == s2[f := Released(s2[f])][t := Released(s2[t].(data := s2[f].data, dirty := false))]
    ensures CopyFrame(s, s', to)
  {
    assert BufOk(s[f], d) && BufOk(s[t], d);
    assert Caches(s2, t, ROOTDEV, to);
    forall k | 0 <= k < |s| ensures s'[k].dirty <==> s[k].dirty && s[k].blockno != to {
      if k != f && k != t && s[k].dirty && s[k].blockno == to {
        assert BufOk(s[k], d);
        assert Caches(s2, k, ROOTDEV, to);
      }
    }
    if s[f].dirty {
      assert Holds(s, f, from);
      ContentHeld(s, d, f, from);
    }
  }

  lemma HeadNet(s: seq<Buf>, s2: seq<Buf>, s': seq<Buf>, d: Disk, t: nat, to: nat)
    requires Coherent(s, d) && t < |s| && |s2| == |s| && s2 == s[t := s2[t]] && Taken(s[t], s2[t], to)
    requires |s'| == |s| && s' == s[t := s'[t]] && s2[t].refcnt > 0
    requires s'[t] == Released(s2[t].(data := s'[t].data, dirty := false))
    requires forall k :: 0 <= k < |s| && s[k].dirty ==> s[k].blockno != to
    ensures CopyFrame(s, s', to)
  {
    assert BufOk(s[t], d);
  }

  lemma ContentTrans(s: seq<Buf>, s1: seq<Buf>, s2: seq<Buf>, d: Disk)
    requires SameContent(s, d, s1, d) && SameContent(s1, d, s2, d)
    ensures SameContent(s, d, s2, d)
  {
  }

  ghost predicate HasUsable(s: seq<Buf>) {
    exists i :: 0 <= i < |s| && Usable(s[i])
  }

  ghost predicate TwoUsable(s: seq<Buf>) {
    exists i, j :: 0 <= i < |s| && 0 <= j < |s| && i != j && Usable(s[i]) && Usable(s[j])
  }

  // Enough buffers to copy a log block to each block of bs in turn.
  ghost predicate Supplies(s: seq<Buf>, bs: seq<Word>) {
    || TwoUsable(s)
    || (HasUsable(s) && Distinct(bs) && forall b: Word :: b in bs ==> exists j: nat :: Pins(s, j, b))
  }

  lemma FrameUsable(s: seq<Buf>, s': seq<Buf>, to: nat)
    requires CopyFrame(s, s', to)
    ensures HasUsable(s) ==> HasUsable(s')
    ensures TwoUsable(s) ==> TwoUsable(s')
  {
    assert forall i :: 0 <= i < |s| && Usable(s[i]) ==> Usable(s'[i]);
  }

  lemma FramePins(s: seq<Buf>, s': seq<Buf>, to: nat, b: nat)
    requires CopyFrame(s, s', to) && b != to
    requires exists j: nat :: Pins(s, j, b)
    ensures exists j: nat :: Pins(s', j, b)
  {
    var j: nat :| Pins(s, j, b);
    assert s'[j] == s[j];
    assert Pins(s', j, b);
  }

  lemma FrameFree(s: seq<Buf>, s': seq<Buf>, to: nat, b: nat)
    requires CopyFrame(s, s', to) && Free(s, b)
    ensures Free(s', b)
  {
    forall i: nat | Caches(s', i, ROOTDEV, b) ensures !s'[i].locked {
      assert s[i].locked ==> Caches(s, i, ROOTDEV, b);
    }
  }

  // Buffers for the log area and for the logged blocks are held by nobody.
  ghost predicate Quiet(s: seq<Buf>, L: Layout, bs: seq<Word>) {
    forall b: nat :: L.Covers(b) || (b < TWO32 && b in bs) ==> Free(s, b)
  }

  lemma FrameQuiet(s: seq<Buf>, s': seq<Buf>, to: nat, L: Layout, bs: seq<Word>)
    requires CopyFrame(s, s', to) && Quiet(s, L, bs)
    ensures Quiet(s', L, bs)
  {
    forall b: nat | L.Covers(b) || (b < TWO32 && b in bs) ensures Free(s', b) {
      FrameFree(s, s', to, b);
    }
  }

  lemma PinOf(s: seq<Buf>, bs: seq<Word>, k: nat)
    requires PinsMatch(s, bs) && k < |bs|
    ensures exists i: nat :: Pins(s, i, bs[k])
  {
    assert bs[k] in bs;
  }

  // Writing a block that is not logged leaves the pins as they are.
  lemma FramePinsMatch(s: seq<Buf>, s': seq<Buf>, to: nat, bs: seq<Word>)
    requires CopyFrame(s, s', to) && PinsMatch(s, bs) && (to < TWO32 ==> to !in bs)
    ensures PinsMatch(s', bs)
  {
    forall b: Word | b in bs ensures exists j: nat :: Pins(s', j, b) {
      FramePins(s, s', to, b);
    }
  }

  // The data that write_log will copy.
  ghost function LoggedData(s: seq<Buf>, d: Disk, bs: seq<Word>): (r: seq<Block>)
    requires forall i :: 0 <= i < |bs| ==> bs[i] < |d|
    ensures |r| == |bs|
  {
    seq(|bs|, i requires 0 <= i < |bs| => Content(s, d, bs[i]))
  }

  // Only blocks of bs are pinned.
  ghost predicate DirtyIn(s: seq<Buf>, bs: seq<Word>) {
    forall i :: 0 <= i < |s| && s[i].dirty ==> s[i].blockno in bs
  }

  lemma FrameDirtyIn(s: seq<Buf>, s': seq<Buf>, bs: seq<Word>)
    requires bs != [] && CopyFrame(s, s', bs[0]) && DirtyIn(s, bs)
    ensures DirtyIn(s', bs[1..])
  {
    forall i | 0 <= i < |s'| && s'[i].dirty ensures s'[i].blockno in bs[1..] {
      assert s[i].blockno in bs && s[i].blockno != bs[0];
    }
  }

  lemma FrameSupplies(s: seq<Buf>, s': seq<Buf>, bs: seq<Word>)
    requires bs != [] && CopyFrame(s, s', bs[0]) && Supplies(s, bs)
    ensures Supplies(s', bs[1..])
  {
    FrameUsable(s, s', bs[0]);
    if !TwoUsable(s) {
      forall b: Word | b in bs[1..] ensures exists j: nat :: Pins(s', j, b) {
        assert b in bs;
        FramePins(s, s', bs[0], b);
      }
    }
  }

  // Before the log block `from` is copied home: it reads as it is on the disk, and the two
  // buffers are to be had.
  lemma InstallReady(s: seq<Buf>, d: Disk, L: Layout, bs: seq<Word>, tail: nat, from: nat)
    requires Coherent(s, d) && LogFits(L, d) && Loggable(L, |d|, bs) && tail < |bs|
    requires L.Covers(from) && Quiet(s, L, bs) && Supplies(s, bs[tail..]) && DirtyIn(s, bs[tail..])
    ensures Content(s, d, from) == d[from]
    ensures Free(s, from) && Free(s, bs[tail]) && Supply(s, bs[tail])
  {
    assert Free(s, from) && Free(s, bs[tail]);
    forall i: nat | Holds(s, i, from) ensures !s[i].dirty && !s[i].locked {
      assert Caches(s, i, ROOTDEV, from);
    }
    CleanContent(s, d, from);
    assert bs[tail] == bs[tail..][0] && bs[tail] in bs[tail..];
  }

  // With pairwise different blocks, installing leaves each block with its own data.
  lemma InstalledAt(d: Disk, bs: seq<Word>, datas: seq<Block>, t: nat)
    requires |bs| == |datas| && Distinct(bs) && t < |bs| && bs[t] < |d|
    ensures Apply(d, InstallWrites(bs, datas))[bs[t]] == datas[t]
  {
    var iw := InstallWrites(bs, datas);
    LastWriteAt(iw, t);
    ApplyAt(d, iw, bs[t]);
  }

  lemma {:induction false} LastWriteAt(ws: seq<Write>, t: nat)
    requires t < |ws| && forall i :: t < i < |ws| ==> ws[i].bno != ws[t].bno
    ensures LastData(ws, ws[t].bno) == Some(ws[t].data)
  {
    if t < |ws| - 1 {
      LastWriteAt(ws[..|ws| - 1], t);
    }
  }

  // After a commit every logged block reads as before, and the disk has it.
  lemma InstalledContent(s': seq<Buf>, d': Disk, s: seq<Buf>, d: Disk, L: Layout, bs: seq<Word>)
    requires Coherent(s', d') && |d'| == |d| && LogFits(L, d) && Loggable(L, |d|, bs) && Distinct(bs)
    requires SameHome(L, d', Install(d, Group(bs, LoggedData(s, d, bs))))
    requires DirtyIn(s', []) && Quiet(s', L, bs)
    ensures forall b: Word :: b in bs ==> d'[b] == Content(s, d, b) == Content(s', d', b)
  {
    forall b: Word | b in bs ensures d'[b] == Content(s, d, b) == Content(s', d', b) {
      var t :| 0 <= t < |bs| && bs[t] == b;
      InstalledAt(d, bs, LoggedData(s, d, bs), t);
      assert Free(s', b);
      forall i: nat | Holds(s', i, b) ensures !s'[i].dirty && !s'[i].locked {
        assert Caches(s', i, ROOTDEV, b);
      }
      CleanContent(s', d', b);
    }
  }

  lemma PinKeeps(s: seq<Buf>, bs: seq<Word>, d: Disk, i: nat, x: Buf, bs': seq<Word>)
    requires Coherent(s, d) && PinsMatch(s, bs) && i < |s| && s[i].valid && |d| <= TWO32
    requires s[i].locked && x == s[i].(dirty := true) && x.blockno < TWO32
    requires bs' == if x.blockno in bs then bs else bs + [x.blockno]
    ensures Coherent(s[i := x], d) && SameContent(s, d, s[i := x], d) && PinsMatch(s[i := x], bs')
  {
    var s' := s[i := x];
    assert BufOk(s[i], d);
    UpdateCoherent(s, d, i, x);
    UpdateContent(s, d, i, x);
    forall b: Word | b in bs' ensures exists k: nat :: Pins(s', k, b) {
      if b == x.blockno {
        assert Pins(s', i, b);
      } else {
        var k: nat :| Pins(s, k, b);
        assert Pins(s', k, b);
      }
    }
  }

  // ---- pinned buffers and the size of the cache ----

  ghost function Pinned(s: seq<Buf>): set<nat> {
    set i: nat | i < |s| && s[i].dirty
  }

  lemma UnpinLast(s: seq<Buf>, bs: seq<Word>, j: nat)
    requires Unique(s) && PinsMatch(s, bs) && Distinct(bs) && bs != [] && Pins(s, j, bs[|bs| - 1])
    requires forall i :: 0 <= i < |s| && s[i].dirty ==> Holds(s, i, s[i].blockno)
    ensures var s', front := s[j := s[j].(dirty := false)], bs[..|bs| - 1];
      && Unique(s') && PinsMatch(s', front) && Distinct(front)
      && forall i :: 0 <= i < |s'| && s'[i].dirty ==> Holds(s', i, s'[i].blockno)
  {
    var front, b := bs[..|bs| - 1], bs[|bs| - 1];
    var s' := s[j := s[j].(dirty := false)];
    UniqueUpdate(s, j, s'[j]);
    forall c: Word | c in front ensures exists k: nat :: Pins(s', k, c) {
      var t :| 0 <= t < |front| && front[t] == c;
      assert bs[t] == c && c != b && c in bs;
      var k: nat :| Pins(s, k, c);
      assert Pins(s', k, c);
    }
    forall i | 0 <= i < |s'| && s'[i].dirty ensures s'[i].blockno in front && Holds(s', i, s'[i].blockno) {
      assert Caches(s, i, ROOTDEV, s[i].blockno) && Caches(s, j, ROOTDEV, b);
    }
  }

  // There are exactly as many pinned buffers as logged blocks.
  lemma {:induction false} PinnedCount(s: seq<Buf>, bs: seq<Word>)
    requires Unique(s) && PinsMatch(s, bs) && Distinct(bs)
    requires forall i :: 0 <= i < |s| && s[i].dirty ==> Holds(s, i, s[i].blockno)
    ensures |Pinned(s)| == |bs|
    decreases |bs|
  {
    if bs == [] {
      assert Pinned(s) == {};
    } else {
      var front, b := bs[..|bs| - 1], bs[|bs| - 1];
      assert b in bs;
      var j: nat :| Pins(s, j, b);
      var s' := s[j := s[j].(dirty := false)];
      UnpinLast(s, bs, j);
      hide Unique, PinsMatch, Distinct;
      PinnedCount(s', front);
      assert Pinned(s) == Pinned(s') + {j};
    }
  }

  lemma {:induction false} Below(n: nat, p: set<nat>)
    requires forall i :: i in p ==> i < n
    ensures |p| <= n && (|p| == n <==> forall i: nat :: i < n ==> i in p)
  {
    if n == 0 {
      assert p == {};
    } else {
      Below(n - 1, p - {n - 1});
      if n - 1 in p {
        assert p == (p - {n - 1}) + {n - 1};
      } else {
        assert p - {n - 1} == p;
      }
    }
  }

  // When no process holds a buffer, commit can get one exactly if fewer than NBUF blocks are
  // logged.  LOGSIZE equals NBUF, so a full log leaves bget without a buffer for the log blocks.
  lemma CommitHasBuffer(s: seq<Buf>, d: Disk, bs: seq<Word>)
    requires Coherent(s, d) && |s| == NBUF && PinsMatch(s, bs) && Distinct(bs)
    requires forall i :: 0 <= i < NBUF ==> s[i].refcnt == 0
    ensures |bs| <= NBUF
    ensures HasUsable(s) <==> |bs| < NBUF
  {
    forall i | 0 <= i < |s| && s[i].dirty ensures Holds(s, i, s[i].blockno) {
      assert BufOk(s[i], d);
    }
    PinnedCount(s, bs);
    Below(NBUF, Pinned(s));
    if HasUsable(s) {
      var i: nat :| i < |s| && Usable(s[i]);
      assert i !in Pinned(s);
    } else {
      forall i: nat | i < NBUF ensures i in Pinned(s) {
        assert !Usable(s[i]);
      }
    }
  }

  class Log {
    const bc: BCache
    const start: nat
    const size: nat
    const block: array<Word>
    var n: nat
    var outstanding: nat
    var committing: bool

    const layout := Layout(start, size)

    // The zeroed struct log, with the bounds that initlog takes from the super block.
    constructor (cache: BCache, logstart: nat, nlog: nat)
      ensures bc == cache && start == logstart && size == nlog
      ensures n == 0 && outstanding == 0 && !committing && fresh(block) && block.Length == LOGSIZE
    {
      bc := cache;
      start := logstart;
      size := nlog;
      block := new Word[LOGSIZE](_ => 0);
      n, outstanding, committing := 0, 0, false;
    }

    ghost predicate Shape()
      reads this, bc, bc.ide, bc.buf, bc.ring, bc.ring.prev, bc.ring.next, block
    {
      && bc.Valid() && block.Length == LOGSIZE && n <= LOGSIZE
      && LogFits(layout, bc.ide.disk)
      && Loggable(layout, |bc.ide.disk|, block[..n])
    }

    // The state between system calls: the disk log is clear and the pinned buffers are
    // exactly those of the logged blocks.
    ghost predicate Valid()
      reads this, bc, bc.ide, bc.buf, bc.ring, bc.ring.prev, bc.ring.next, block
    {
      Shape() && Distinct(block[..n]) && Clear(layout, bc.ide.disk) && PinsMatch(bc.buf[..], block[..n])
    }

    // bread of a block that nobody holds, when a buffer is to be had.
    method Take(b: nat) returns (i: nat)
      requires bc.Valid() && b < |bc.ide.disk| && Free(bc.buf[..], b)
      requires (exists k: nat :: Holds(bc.buf[..], k, b)) || exists k :: 0 <= k < NBUF && Usable(bc.buf[k])
      modifies bc.ide, bc.buf
      ensures bc.ide.disk == old(bc.ide.disk) && bc.ide.writes == old(bc.ide.writes)
      ensures bc.Valid() && SameContent(old(bc.buf[..]), bc.ide.disk, bc.buf[..], bc.ide.disk)
      ensures i < NBUF && bc.buf[..] == old(bc.buf[..])[i := bc.buf[i]]
      ensures bc.buf[i] == Buf(ROOTDEV, b, true, old(bc.buf[i]).dirty, true, old(bc.buf[i]).refcnt + 1,
                               Content(old(bc.buf[..]), bc.ide.disk, b))
      ensures Caches(old(bc.buf[..]), i, ROOTDEV, b) || Usable(old(bc.buf[i]))
      ensures !old(bc.buf[i]).locked
      ensures bc.buf[i].dirty || bc.buf[i].data == bc.ide.disk[b]
    {
      ghost var s, d := bc.buf[..], bc.ide.disk;
      var r;
      ghost var hit;
      r, hit := bc.Bread(ROOTDEV, b);
      i := r.value;
      assert BufOk(s[i], d);
      if !bc.buf[i].dirty {
        forall k: nat | Holds(s, k, b) ensures !s[k].dirty && !s[k].locked {
          assert Caches(s, k, ROOTDEV, b);
        }
        CleanContent(s, d, b);
      }
    }

    // Two buffers held at once.
    method TakeTwo(first: nat, second: nat) returns (i: nat, j: nat)
      requires bc.Valid() && first < |bc.ide.disk| && second < |bc.ide.disk| && first != second
      requires Free(bc.buf[..], first) && Free(bc.buf[..], second) && Supply(bc.buf[..], second)
      modifies bc.ide, bc.buf
      ensures bc.ide.disk == old(bc.ide.disk) && bc.ide.writes == old(bc.ide.writes)
      ensures bc.Valid() && SameContent(old(bc.buf[..]), bc.ide.disk, bc.buf[..], bc.ide.disk)
      ensures i < NBUF && j < NBUF && i != j
      ensures bc.buf[..] == old(bc.buf[..])[i := bc.buf[i]][j := bc.buf[j]]
      ensures Taken(old(bc.buf[i]), bc.buf[i], first) && Taken(old(bc.buf[j]), bc.buf[j], second)
      ensures bc.buf[i].data == Content(old(bc.buf[..]), bc.ide.disk, first)
      ensures bc.buf[i].dirty || bc.buf[i].data == bc.ide.disk[first]
      ensures bc.buf[j].dirty || bc.buf[j].data == bc.ide.disk[second]
    {
      hide Content;
      ghost var s := bc.buf[..];
      i := Take(first);
      ghost var s1 := bc.buf[..];
      AfterTake(s, s1, i, first, second);
      j := Take(second);
      assert j != i;
    }

    // A held buffer gets new data, which is written at once.
    method StoreAndWrite(t: nat, to: nat, data: Block)
      requires bc.Valid() && t < NBUF && bc.buf[t].locked && Holds(bc.buf[..], t, to)
      modifies bc.ide, bc.buf
      ensures bc.Valid() && to < |old(bc.ide.disk)|
      ensures bc.ide.disk == old(bc.ide.disk)[to := data]
      ensures bc.ide.writes == old(bc.ide.writes) + [Write(to, data)]
      ensures bc.buf[..] == old(bc.buf[..])[t := old(bc.buf[t]).(data := data, dirty := false)]
      ensures forall b: nat :: b < |bc.ide.disk| ==>
                Content(bc.buf[..], bc.ide.disk, b)
                == if b == to then data else Content(old(bc.buf[..]), old(bc.ide.disk), b)
    {
      assert BufOk(bc.buf[..][t], bc.ide.disk);
      bc.Store(t, data);
      var w := bc.Bwrite(t);
    }

    method WriteAndRelease(t: nat, to: nat, data: Block)
      requires bc.Valid() && t < NBUF && bc.buf[t].locked && Holds(bc.buf[..], t, to)
      modifies bc.ide, bc.buf, bc.ring, bc.ring.prev, bc.ring.next
      ensures bc.Valid() && to < |old(bc.ide.disk)| && old(bc.buf[t]).refcnt > 0
      ensures bc.ide.disk == old(bc.ide.disk)[to := data]
      ensures bc.ide.writes == old(bc.ide.writes) + [Write(to, data)]
      ensures bc.buf[..] == old(bc.buf[..])[t := Released(old(bc.buf[t]).(data := data, dirty := false))]
      ensures forall b: nat :: b < |bc.ide.disk| ==>
                Content(bc.buf[..], bc.ide.disk, b)
                == if b == to then data else Content(old(bc.buf[..]), old(bc.ide.disk), b)
    {
      assert BufOk(bc.buf[..][t], bc.ide.disk);
      StoreAndWrite(t, to, data);
      var r;
      ghost var k;
      r, k := bc.Brelse(t);
    }

    // Both buffers are given back.
    method ReleaseTwo(f: nat, t: nat)
      requires bc.Valid() && f < NBUF && t < NBUF && f != t
      requires bc.buf[f].locked && bc.buf[t].locked
      requires BufOk(bc.buf[f], bc.ide.disk) && bc.buf[f].valid && BufOk(bc.buf[t], bc.ide.disk) && bc.buf[t].valid
      requires bc.buf[f].dirty || bc.buf[f].data == bc.ide.disk[bc.buf[f].blockno]
      requires bc.buf[t].dirty || bc.buf[t].data == bc.ide.disk[bc.buf[t].blockno]
      modifies bc.buf, bc.ring, bc.ring.prev, bc.ring.next
      ensures bc.Valid() && SameContent(old(bc.buf[..]), bc.ide.disk, bc.buf[..], bc.ide.disk)
      ensures bc.buf[..] == old(bc.buf[..])[f := Released(old(bc.buf[f]))][t := Released(old(bc.buf[t]))]
    {
      hide Content;
      assert BufOk(bc.buf[..][f], bc.ide.disk) && BufOk(bc.buf[..][t], bc.ide.disk);
      var r;
      ghost var k;
      r, k := bc.Brelse(f);
      r, k := bc.Brelse(t);
    }

    // The data of one held buffer is copied to the other and written; both are given back.
    method CopyHeld(f: nat, t: nat, from: nat, to: nat)
      requires bc.Valid() && f < NBUF && t < NBUF && f != t && from != to
      requires bc.buf[f].locked && Holds(bc.buf[..], f, from) && bc.buf[t].locked && Holds(bc.buf[..], t, to)
      requires from < |bc.ide.disk| && (bc.buf[f].dirty || bc.buf[f].data == bc.ide.disk[from])
      modifies bc.ide, bc.buf, bc.ring, bc.ring.prev, bc.ring.next
      ensures bc.Valid() && to < |old(bc.ide.disk)|
      ensures bc.ide.disk == old(bc.ide.disk)[to := old(bc.buf[f]).data]
      ensures bc.ide.writes == old(bc.ide.writes) + [Write(to, old(bc.buf[f]).data)]
      ensures bc.buf[..] == old(bc.buf[..])
                [f := Released(old(bc.buf[f]))]
                [t := Released(old(bc.buf[t]).(data := old(bc.buf[f]).data, dirty := false))]
      ensures forall b: nat :: b < |bc.ide.disk| ==>
                Content(bc.buf[..], bc.ide.disk, b)
                == if b == to then old(bc.buf[f]).data else Content(old(bc.buf[..]), old(bc.ide.disk), b)
    {
      assert BufOk(bc.buf[..][f], bc.ide.disk) && BufOk(bc.buf[..][t], bc.ide.disk);
      StoreAndWrite(t, to, bc.buf[f].data);
      ReleaseTwo(f, t);
    }

    // bread twice; memmove; bwrite; brelse twice: one turn of the loop in write_log (which
    // reads the destination first) or in install_trans (which reads the source first).
    method CopyBlock(from: nat, to: nat, toFirst: bool)
      requires bc.Valid() && from != to && from < |bc.ide.disk| && to < |bc.ide.disk|
      requires Free(bc.buf[..], from) && Free(bc.buf[..], to)
      requires Supply(bc.buf[..], if toFirst then from else to)
      modifies bc.ide, bc.buf, bc.ring, bc.ring.prev, bc.ring.next
      ensures bc.Valid() && CopyFrame(old(bc.buf[..]), bc.buf[..], to)
      ensures var x := Content(old(bc.buf[..]), old(bc.ide.disk), from);
        && bc.ide.disk == old(bc.ide.disk)[to := x]
        && bc.ide.writes == old(bc.ide.writes) + [Write(to, x)]
        && forall b: nat :: b < |bc.ide.disk| ==>
             Content(bc.buf[..], bc.ide.disk, b)
             == if b == to then x else Content(old(bc.buf[..]), old(bc.ide.disk), b)
    {
      hide Content;
      ghost var s, d := bc.buf[..], bc.ide.disk;
      var f, t;
      if toFirst {
        t, f := TakeTwo(to, from);
      } else {
        f, t := TakeTwo(from, to);
      }
      ghost var s2 := bc.buf[..];
      assert Holds(s2, f, from);
      ContentHeld(s2, d, f, from);
      CopyHeld(f, t, from, to);
      CopyNet(s, s2, bc.buf[..], d, f, t, from, to);
    }

    // Every logged block's current data goes to its place in the log.
    method WriteLog()
      requires Valid() && Quiet(bc.buf[..], layout, block[..n]) && HasUsable(bc.buf[..])
      modifies bc.ide, bc.buf, bc.ring, bc.ring.prev, bc.ring.next
      ensures Shape() && PinsMatch(bc.buf[..], block[..n])
      ensures Quiet(bc.buf[..], layout, block[..n]) && HasUsable(bc.buf[..])
      ensures Trace(old(bc.ide.disk), old(bc.ide.writes),
                    LogWrites(layout, LoggedData(old(bc.buf[..]), old(bc.ide.disk), block[..n])),
                    bc.ide.disk, bc.ide.writes)
      ensures forall b: nat :: b < |bc.ide.disk| && !layout.Covers(b) ==>
                Content(bc.buf[..], bc.ide.disk, b) == Content(old(bc.buf[..]), old(bc.ide.disk), b)
    {
      hide Content;
      ghost var s, d, h := bc.buf[..], bc.ide.disk, bc.ide.writes;
      ghost var lw := LogWrites(layout, LoggedData(s, d, block[..n]));
      var tail := 0;
      while tail < n
        invariant tail <= n && Shape() && |bc.ide.disk| == |d|
        invariant PinsMatch(bc.buf[..], block[..n])
        invariant Quiet(bc.buf[..], layout, block[..n]) && HasUsable(bc.buf[..])
        invariant Trace(d, h, lw[..tail], bc.ide.disk, bc.ide.writes)
        invariant forall b: nat :: b < |d| && !layout.Covers(b) ==>
                    Content(bc.buf[..], bc.ide.disk, b) == Content(s, d, b)
        modifies bc.ide, bc.buf, bc.ring, bc.ring.prev, bc.ring.next
      {
        ghost var d1, h1 := bc.ide.disk, bc.ide.writes;
        assert block[tail] == block[..n][tail];
        assert lw[tail] == Write(start + tail + 1, Content(s, d, block[tail]));
        TraceNext(d, h, lw, tail, d1, h1);
        WriteLogBlock(tail);
        assert bc.ide.disk == d1[lw[tail].bno := lw[tail].data] && bc.ide.writes == h1 + [lw[tail]];
        tail := tail + 1;
      }
      assert lw[..n] == lw;
    }

    method WriteLogBlock(tail: nat)
      requires Shape() && PinsMatch(bc.buf[..], block[..n])
      requires Quiet(bc.buf[..], layout, block[..n]) && HasUsable(bc.buf[..]) && tail < n
      modifies bc.ide, bc.buf, bc.ring, bc.ring.prev, bc.ring.next
      ensures Shape() && PinsMatch(bc.buf[..], block[..n])
      ensures Quiet(bc.buf[..], layout, block[..n]) && HasUsable(bc.buf[..])
      ensures var x := Content(old(bc.buf[..]), old(bc.ide.disk), block[tail]);
        && bc.ide.disk == old(bc.ide.disk)[start + tail + 1 := x]
        && bc.ide.writes == old(bc.ide.writes) + [Write(start + tail + 1, x)]
      ensures forall b: nat :: b < |bc.ide.disk| && b != start + tail + 1 ==>
                Content(bc.buf[..], bc.ide.disk, b) == Content(old(bc.buf[..]), old(bc.ide.disk), b)
    {
      hide Content;
      ghost var s := bc.buf[..];
      var to := start + tail + 1;
      assert layout.Covers(to) && block[..n][tail] == block[tail];
      PinOf(s, block[..n], tail);
      assert Free(s, block[tail]) && Free(s, to);
      CopyBlock(block[tail], to, true);
      FrameUsable(s, bc.buf[..], to);
      FrameQuiet(s, bc.buf[..], to, layout, block[..n]);
      FramePinsMatch(s, bc.buf[..], to, block[..n]);
    }

    // The buffer image that write_head leaves in the header's buffer.
    method FillHead(h: Block) returns (r: Block)
      requires block.Length == LOGSIZE && n <= LOGSIZE
      ensures r == PutHead(h, block[..n])
    {
      r := SetWord(h, 0, n);
      var i := 0;
      while i < n
        invariant i <= n
        invariant r == PutEntries(SetWord(h, 0, n), block[..n], i)
      {
        r := SetWord(r, i + 1, block[i]);
        i := i + 1;
      }
    }

    // The block list goes into the header on disk, in one block write.
    method WriteHead()
      requires Shape() && Free(bc.buf[..], start) && HasUsable(bc.buf[..])
      requires forall i :: 0 <= i < NBUF && bc.buf[i].dirty ==> bc.buf[i].blockno != start
      modifies bc.ide, bc.buf, bc.ring, bc.ring.prev, bc.ring.next
      ensures Shape() && CopyFrame(old(bc.buf[..]), bc.buf[..], start)
      ensures var x := PutHead(old(bc.ide.disk)[start], block[..n]);
        bc.ide.disk == old(bc.ide.disk)[start := x] && bc.ide.writes == old(bc.ide.writes) + [Write(start, x)]
      ensures forall b: nat :: b < |bc.ide.disk| && b != start ==>
                Content(bc.buf[..], bc.ide.disk, b) == Content(old(bc.buf[..]), old(bc.ide.disk), b)
    {
      hide Content;
      ghost var s, d := bc.buf[..], bc.ide.disk;
      var t := Take(start);
      ghost var s2 := bc.buf[..];
      var h := FillHead(bc.buf[t].data);
      WriteAndRelease(t, start, h);
      HeadNet(s, s2, bc.buf[..], d, t, start);
    }

    method InstallBlock(tail: nat)
      requires Shape() && tail < n
      requires Quiet(bc.buf[..], layout, block[..n]) && Supplies(bc.buf[..], block[tail..n])
      requires DirtyIn(bc.buf[..], block[tail..n])
      modifies bc.ide, bc.buf, bc.ring, bc.ring.prev, bc.ring.next
      ensures Shape() && Quiet(bc.buf[..], layout, block[..n]) && Supplies(bc.buf[..], block[tail + 1..n])
      ensures DirtyIn(bc.buf[..], block[tail + 1..n])
      ensures var x := old(bc.ide.disk)[start + 1 + tail];
        && bc.ide.disk == old(bc.ide.disk)[block[tail] := x]
        && bc.ide.writes == old(bc.ide.writes) + [Write(block[tail], x)]
      ensures forall b: nat :: b < |bc.ide.disk| && b != block[tail] ==>
                Content(bc.buf[..], bc.ide.disk, b) == Content(old(bc.buf[..]), old(bc.ide.disk), b)
    {
      hide Content;
      ghost var s, d, bs := bc.buf[..], bc.ide.disk, block[tail..n];
      var from, to := start + tail + 1, block[tail];
      assert block[..n][tail] == to && bs[0] == to && bs[1..] == block[tail + 1..n];
      assert layout.Covers(from);
      InstallReady(s, d, layout, block[..n], tail, from);
      CopyBlock(from, to, false);
      FrameQuiet(s, bc.buf[..], to, layout, block[..n]);
      FrameSupplies(s, bc.buf[..], bs);
      FrameDirtyIn(s, bc.buf[..], bs);
    }

    // Every block in the log goes to the block it belongs to.
    method InstallTrans()
      requires Shape() && Quiet(bc.buf[..], layout, block[..n]) && Supplies(bc.buf[..], block[..n])
      requires DirtyIn(bc.buf[..], block[..n]) && HasUsable(bc.buf[..])
      modifies bc.ide, bc.buf, bc.ring, bc.ring.prev, bc.ring.next
      ensures Shape() && Quiet(bc.buf[..], layout, block[..n]) && DirtyIn(bc.buf[..], [])
      ensures HasUsable(bc.buf[..])
      ensures Trace(old(bc.ide.disk), old(bc.ide.writes),
                    InstallWrites(block[..n], LogData(layout, old(bc.ide.disk), n)),
                    bc.ide.disk, bc.ide.writes)
      ensures forall b: nat :: layout.Covers(b) ==> bc.ide.disk[b] == old(bc.ide.disk)[b]
      ensures forall b: nat :: b < |bc.ide.disk| && (b < TWO32 ==> b !in block[..n]) ==>
                Content(bc.buf[..], bc.ide.disk, b) == Content(old(bc.buf[..]), old(bc.ide.disk), b)
    {
      hide Content;
      ghost var s, d, h := bc.buf[..], bc.ide.disk, bc.ide.writes;
      ghost var iw := InstallWrites(block[..n], LogData(layout, d, n));
      var tail := 0;
      assert block[0..n] == block[..n];
      while tail < n
        invariant tail <= n && Shape() && |bc.ide.disk| == |d|
        invariant Quiet(bc.buf[..], layout, block[..n]) && Supplies(bc.buf[..], block[tail..n])
        invariant DirtyIn(bc.buf[..], block[tail..n])
        invariant Trace(d, h, iw[..tail], bc.ide.disk, bc.ide.writes)
        invariant forall b: nat :: layout.Covers(b) ==> bc.ide.disk[b] == d[b]
        invariant forall b: nat :: b < |d| && (b < TWO32 ==> b !in block[..n]) ==>
                    Content(bc.buf[..], bc.ide.disk, b) == Content(s, d, b)
        modifies bc.ide, bc.buf, bc.ring, bc.ring.prev, bc.ring.next
      {
        ghost var d1, h1 := bc.ide.disk, bc.ide.writes;
        assert block[tail] == block[..n][tail];
        assert layout.Covers(start + 1 + tail);
        assert iw[tail] == Write(block[tail], d[start + 1 + tail]);
        TraceNext(d, h, iw, tail, d1, h1);
        InstallBlock(tail);
        assert bc.ide.disk == d1[iw[tail].bno := iw[tail].data] && bc.ide.writes == h1 + [iw[tail]];
        tail := tail + 1;
      }
      assert iw[..n] == iw;
      assert block[n..n] == [];
    }

    // write_log and write_head: everything up to the commit point.
    method CommitToLog()
      requires Valid() && Quiet(bc.buf[..], layout, block[..n]) && HasUsable(bc.buf[..])
      modifies bc.ide, bc.buf, bc.ring, bc.ring.prev, bc.ring.next
      ensures Shape() && Quiet(bc.buf[..], layout, block[..n]) && HasUsable(bc.buf[..])
      ensures Supplies(bc.buf[..], block[..n]) && DirtyIn(bc.buf[..], block[..n])
      ensures Trace(old(bc.ide.disk), old(bc.ide.writes),
                    CommitPoint(layout, old(bc.ide.disk)[start],
                                Group(block[..n], LoggedData(old(bc.buf[..]), old(bc.ide.disk), block[..n]))),
                    bc.ide.disk, bc.ide.writes)
      ensures forall b: nat :: b < |bc.ide.disk| && !layout.Covers(b) ==>
                Content(bc.buf[..], bc.ide.disk, b) == Content(old(bc.buf[..]), old(bc.ide.disk), b)
    {
      hide Content, PutHead;
      ghost var d, h := bc.ide.disk, bc.ide.writes;
      ghost var g := Group(block[..n], LoggedData(bc.buf[..], bc.ide.disk, block[..n]));
      WriteLog();
      ghost var s1, d1, h1 := bc.buf[..], bc.ide.disk, bc.ide.writes;
      ghost var lw := LogWrites(layout, g.datas);
      assert lw[..n] == lw;
      LogPhaseKeepsHome(layout, d, g, n);
      assert layout.Covers(start);
      WriteHead();
      ghost var w := Write(start, PutHead(d[start], block[..n]));
      TraceOne(d1, h1, w);
      TraceThen(d, h, lw, d1, h1, [w], bc.ide.disk, bc.ide.writes);
      FrameUsable(s1, bc.buf[..], start);
      FrameQuiet(s1, bc.buf[..], start, layout, block[..n]);
      FramePinsMatch(s1, bc.buf[..], start, block[..n]);
    }

    // The end of commit and of recovery: the blocks go home, and an empty header is written.
    method InstallAndErase()
      requires Shape() && Quiet(bc.buf[..], layout, block[..n]) && Supplies(bc.buf[..], block[..n])
      requires DirtyIn(bc.buf[..], block[..n]) && HasUsable(bc.buf[..]) && Free(bc.buf[..], start)
      requires WellFormed(layout, bc.ide.disk) && HeadBlocks(bc.ide.disk[start]) == block[..n]
      modifies this`n, bc.ide, bc.buf, bc.ring, bc.ring.prev, bc.ring.next
      ensures Shape() && n == 0 && Clear(layout, bc.ide.disk) && DirtyIn(bc.buf[..], [])
      ensures Trace(old(bc.ide.disk), old(bc.ide.writes), RecoverWrites(layout, old(bc.ide.disk)),
                    bc.ide.disk, bc.ide.writes)
      ensures Quiet(bc.buf[..], layout, old(block[..n]))
      ensures forall b: nat :: b < |bc.ide.disk| && b != start && (b < TWO32 ==> b !in old(block[..n])) ==>
                Content(bc.buf[..], bc.ide.disk, b) == Content(old(bc.buf[..]), old(bc.ide.disk), b)
    {
      hide Content, PutHead;
      ghost var d, h, bs := bc.ide.disk, bc.ide.writes, block[..n];
      assert layout.Covers(start);
      InstallTrans();
      ghost var s1, d1, h1 := bc.buf[..], bc.ide.disk, bc.ide.writes;
      n := 0;
      assert block[..n] == [];
      WriteHead();
      ghost var w := Write(start, PutHead(d[start], []));
      EmptyHead(d[start]);
      TraceOne(d1, h1, w);
      TraceThen(d, h, InstallWrites(bs, LogData(layout, d, |bs|)), d1, h1, [w], bc.ide.disk, bc.ide.writes);
      FrameQuiet(s1, bc.buf[..], start, layout, bs);
    }

    method LoadHead(h: Block)
      requires block.Length == LOGSIZE && HeadCount(h) <= LOGSIZE
      modifies this`n, block
      ensures n == HeadCount(h) && block[..n] == HeadBlocks(h)
    {
      n := GetWord(h, 0);
      var i := 0;
      while i < n
        invariant i <= n == HeadCount(h)
        invariant forall j :: 0 <= j < i ==> block[j] == GetWord(h, j + 1)
        modifies block
      {
        block[i] := GetWord(h, i + 1);
        i := i + 1;
      }
    }

    // The block list is taken over from the header on disk.
    method ReadHead()
      requires bc.Valid() && block.Length == LOGSIZE && LogFits(layout, bc.ide.disk)
      requires HeadCount(bc.ide.disk[start]) <= LOGSIZE
      requires Free(bc.buf[..], start) && HasUsable(bc.buf[..]) && DirtyIn(bc.buf[..], [])
      modifies this`n, block, bc.ide, bc.buf, bc.ring, bc.ring.prev, bc.ring.next
      ensures bc.Valid() && bc.ide.disk == old(bc.ide.disk) && bc.ide.writes == old(bc.ide.writes)
      ensures n == HeadCount(bc.ide.disk[start]) <= block.Length && block[..n] == HeadBlocks(bc.ide.disk[start])
      ensures SameContent(old(bc.buf[..]), bc.ide.disk, bc.buf[..], bc.ide.disk)
      ensures CopyFrame(old(bc.buf[..]), bc.buf[..], start)
    {
      hide Content, HeadBlocks, HeadCount, SameContent, CopyFrame;
      ghost var s, d := bc.buf[..], bc.ide.disk;
      var t := Take(start);
      ghost var s2 := bc.buf[..];
      var h := bc.buf[t].data;
      LoadHead(h);
      var r;
      ghost var k;
      r, k := bc.Brelse(t);
      HeadNet(s, s2, bc.buf[..], d, t, start);
      ContentTrans(s, s2, bc.buf[..], d);
    }

    // recover_from_log, at boot: the cache is unused, whatever the disk holds.
    method RecoverFromLog()
      requires bc.Valid() && block.Length == LOGSIZE && WellFormed(layout, bc.ide.disk)
      requires TwoUsable(bc.buf[..]) && DirtyIn(bc.buf[..], [])
      requires Quiet(bc.buf[..], layout, HeadBlocks(bc.ide.disk[start]))
      modifies this`n, block, bc.ide, bc.buf, bc.ring, bc.ring.prev, bc.ring.next
      ensures Valid() && n == 0
      ensures bc.ide.disk == Recover(layout, old(bc.ide.disk))
      ensures bc.ide.writes == old(bc.ide.writes) + RecoverWrites(layout, old(bc.ide.disk))
    {
      ghost var s := bc.buf[..];
      assert layout.Covers(start);
      ReadHead();
      FrameUsable(s, bc.buf[..], start);
      FrameQuiet(s, bc.buf[..], start, layout, block[..n]);
      assert layout.Covers(start);
      InstallAndErase();
      assert block[..n] == [];
    }

    // The body of end_op for the last operation of a group: all of its blocks reach the disk in
    // the order that makes it atomic, and what readers see does not change.
    method Commit()
      requires Valid() && Quiet(bc.buf[..], layout, block[..n]) && HasUsable(bc.buf[..])
      modifies this`n, bc.ide, bc.buf, bc.ring, bc.ring.prev, bc.ring.next
      ensures Valid() && n == 0
      ensures Trace(old(bc.ide.disk), old(bc.ide.writes),
                    CommitWrites(layout, old(bc.ide.disk)[start], old(block[..n]),
                                 LoggedData(old(bc.buf[..]), old(bc.ide.disk), old(block[..n]))),
                    bc.ide.disk, bc.ide.writes)
      ensures forall b: nat :: b < |bc.ide.disk| && !layout.Covers(b) ==>
                Content(bc.buf[..], bc.ide.disk, b) == Content(old(bc.buf[..]), old(bc.ide.disk), b)
      ensures forall b: Word :: b in old(block[..n]) ==>
                bc.ide.disk[b] == Content(old(bc.buf[..]), old(bc.ide.disk), b)
    {
      hide Content, PutHead;
      ghost var s, d, bs := bc.buf[..], bc.ide.disk, block[..n];
      if n > 0 {
        CommitGroup();
        CommitInstalls(layout, d, Group(bs, LoggedData(s, d, bs)));
        InstalledContent(bc.buf[..], bc.ide.disk, s, d, layout, bs);
      }
    }

    method CommitGroup()
      requires Valid() && Quiet(bc.buf[..], layout, block[..n]) && HasUsable(bc.buf[..]) && n > 0
      modifies this`n, bc.ide, bc.buf, bc.ring, bc.ring.prev, bc.ring.next
      ensures Valid() && n == 0 && DirtyIn(bc.buf[..], []) && Quiet(bc.buf[..], layout, old(block[..n]))
      ensures Trace(old(bc.ide.disk), old(bc.ide.writes),
                    CommitWrites(layout, old(bc.ide.disk)[start], old(block[..n]),
                                 LoggedData(old(bc.buf[..]), old(bc.ide.disk), old(block[..n]))),
                    bc.ide.disk, bc.ide.writes)
      ensures forall b: nat :: b < |bc.ide.disk| && !layout.Covers(b) && (b < TWO32 ==> b !in old(block[..n])) ==>
                Content(bc.buf[..], bc.ide.disk, b) == Content(old(bc.buf[..]), old(bc.ide.disk), b)
    {
      hide Content, PutHead;
      ghost var d, h := bc.ide.disk, bc.ide.writes;
      ghost var g := Group(block[..n], LoggedData(bc.buf[..], d, block[..n]));
      CommitToLog();
      CommitTrace(layout, d, h, g, bc.ide.disk, bc.ide.writes);
      assert layout.Covers(start);
      InstallAndErase();
      assert block[..n] == [];
    }

    // log_write: the holder of buffer i has modified it and is done with it.
    method LogWrite(i: nat) returns (r: Result<()>)
      requires Valid() && i < NBUF && bc.buf[i].locked && bc.buf[i].valid
      requires !layout.Covers(bc.buf[i].blockno)
      modifies this`n, block, bc.buf
      ensures r.Panic? <==> old(n) >= LOGSIZE || old(n) + 1 >= size || outstanding < 1
      ensures r.Ok? ==>
                && Valid()
                && bc.buf[..] == old(bc.buf[..])[i := old(bc.buf[i]).(dirty := true)]
                && SameContent(old(bc.buf[..]), bc.ide.disk, bc.buf[..], bc.ide.disk)
                && bc.buf[i].blockno < TWO32
                && block[..n] == if bc.buf[i].blockno in old(block[..n]) then old(block[..n])
                                 else old(block[..n]) + [bc.buf[i].blockno]
    {
      hide Content, SameContent, PinsMatch;
      if n >= LOGSIZE || n + 1 >= size {
        return Panic("too big a transaction");
      }
      if outstanding < 1 {
        return Panic("log_write outside of trans");
      }
      ghost var s, bs := bc.buf[..], block[..n];
      var x := bc.buf[i];
      BlockInRange(s, bc.ide.disk, i);
      hide Coherent, Distinct, Clear;
      Absorb(x.blockno);
      x := x.(dirty := true);
      PinKeeps(s, bs, bc.ide.disk, i, x, block[..n]);
      StillDistinct(bs, x.blockno);
      bc.buf[i] := x;
      assert bc.buf[..] == s[i := x];
      return Ok(());
    }

    // log absorption: the header lists block b once.
    method Absorb(b: Word)
      requires n < block.Length
      modifies this`n, block
      ensures n <= block.Length && block[..n] == if b in old(block[..n]) then old(block[..n]) else old(block[..n]) + [b]
    {
      ghost var bs := block[..n];
      var k := 0;
      while k < n && block[k] != b
        invariant k <= n
        invariant forall j :: 0 <= j < k ==> block[j] != b
      {
        k := k + 1;
      }
      block[k] := b;
      if k == n {
        n := n + 1;
      } else {
        assert b == bs[k];
      }
    }
  }

  lemma BlockInRange(s: seq<Buf>, d: Disk, i: nat)
    requires Coherent(s, d) && i < |s| && s[i].valid
    ensures s[i].blockno < |d|
  {
    assert BufOk(s[i], d);
  }

  lemma StillDistinct(bs: seq<Word>, b: Word)
    requires Distinct(bs)
    ensures Distinct(if b in bs then bs else bs + [b])
  {
  }
}
