// What the redo log does to the disk, one atomic block write at a time, and what a
// reboot makes of the disk that a crash leaves behind (log.c).
module LogRecovery {
  import opened Blocks
  import opened Params

  type Disk = seq<Block>

  datatype Write = Write(bno: nat, data: Block)

  // The log occupies the blocks [start, start + size): the header, then size - 1 log blocks.
  datatype Layout = Layout(start: nat, size: nat) {
    predicate Covers(b: nat) { start <= b < start + size }
  }

  // ---- sequences of block writes ----

  function ApplyOne(d: Disk, w: Write): (r: Disk)
    ensures |r| == |d|
  {
    if w.bno < |d| then d[w.bno := w.data] else d
  }

  function Apply(d: Disk, ws: seq<Write>): (r: Disk)
    ensures |r| == |d|
  {
    if ws == [] then d else ApplyOne(Apply(d, ws[..|ws| - 1]), ws[|ws| - 1])
  }

  // The data most recently written to block b, if any.
  function LastData(ws: seq<Write>, b: nat): Option<Block> {
    if ws == [] then None
    else if ws[|ws| - 1].bno == b then Some(ws[|ws| - 1].data)
    else LastData(ws[..|ws| - 1], b)
  }

  lemma {:induction false} ApplyAt(d: Disk, ws: seq<Write>, b: nat)
    requires b < |d|
    ensures Apply(d, ws)[b] == (match LastData(ws, b) case Some(x) => x case None => d[b])
  {
    if ws != [] {
      ApplyAt(d, ws[..|ws| - 1], b);
    }
  }

  lemma {:induction false} ApplyConcat(d: Disk, ws: seq<Write>, vs: seq<Write>)
    ensures Apply(d, ws + vs) == Apply(Apply(d, ws), vs)
  {
    if vs == [] {
      assert ws + vs == ws;
    } else {
      assert (ws + vs)[..|ws + vs| - 1] == ws + vs[..|vs| - 1];
      ApplyConcat(d, ws, vs[..|vs| - 1]);
    }
  }

  lemma {:induction false} LastDataNone(ws: seq<Write>, b: nat)
    ensures LastData(ws, b).None? <==> forall i :: 0 <= i < |ws| ==> ws[i].bno != b
  {
    if ws != [] {
      LastDataNone(ws[..|ws| - 1], b);
    }
  }

  // ---- the log header ----

  function HeadCount(b: Block): Word { GetWord(b, 0) }

  function HeadBlocks(b: Block): (bs: seq<Word>)
    requires HeadCount(b) <= LOGSIZE
    ensures |bs| == HeadCount(b)
  {
    seq(HeadCount(b), i requires 0 <= i < HeadCount(b) => GetWord(b, i + 1))
  }

  function PutEntries(b: Block, bs: seq<Word>, k: nat): Block
    requires k <= |bs| <= LOGSIZE
  {
    if k == 0 then b else SetWord(PutEntries(b, bs, k - 1), k, bs[k - 1])
  }

  function PutHead(b: Block, bs: seq<Word>): Block
    requires |bs| <= LOGSIZE
  {
    PutEntries(SetWord(b, 0, |bs|), bs, |bs|)
  }

  lemma {:induction false} PutEntriesWords(b: Block, bs: seq<Word>, k: nat, j: nat)
    requires k <= |bs| <= LOGSIZE && j < WORDS
    ensures GetWord(PutEntries(b, bs, k), j) == if 1 <= j <= k then bs[j - 1] else GetWord(b, j)
  {
    if k > 0 {
      PutEntriesWords(b, bs, k - 1, j);
      GetSetWord(PutEntries(b, bs, k - 1), k, bs[k - 1], j);
    }
  }

  // read_head gets back exactly what write_head stored.
  lemma HeadRoundTrip(b: Block, bs: seq<Word>)
    requires |bs| <= LOGSIZE
    ensures HeadCount(PutHead(b, bs)) == |bs|
    ensures HeadBlocks(PutHead(b, bs)) == bs
  {
    hide GetWord, SetWord;
    var b0 := SetWord(b, 0, |bs|);
    GetSetWord(b, 0, |bs|, 0);
    PutEntriesWords(b0, bs, |bs|, 0);
    forall i | 0 <= i < |bs| ensures GetWord(PutHead(b, bs), i + 1) == bs[i] {
      PutEntriesWords(b0, bs, |bs|, i + 1);
    }
  }

  // Where they are in the block: the number of entries in word 0, entry i in word i + 1, the rest as before.
  lemma HeadLayout(b: Block, bs: seq<Word>, j: nat)
    requires |bs| <= LOGSIZE && j < WORDS
    ensures GetWord(PutHead(b, bs), j) == if j == 0 then |bs| else if j <= |bs| then bs[j - 1] else GetWord(b, j)
  {
    hide GetWord, SetWord;
    PutEntriesWords(SetWord(b, 0, |bs|), bs, |bs|, j);
    GetSetWord(b, 0, |bs|, j);
  }

  // ---- the writes of commit and of recovery ----

  predicate LogFits(L: Layout, d: Disk) {
    0 < L.size && L.start + L.size <= |d| <= TWO32
  }

  // A block list the log can hold: at most LOGSIZE and size - 1 entries, none of them
  // inside the log itself.
  predicate Loggable(L: Layout, n: nat, bs: seq<Word>) {
    && |bs| <= LOGSIZE && |bs| < L.size
    && forall i :: 0 <= i < |bs| ==> bs[i] < n && !L.Covers(bs[i])
  }

  predicate WellFormed(L: Layout, d: Disk) {
    LogFits(L, d) && HeadCount(d[L.start]) <= LOGSIZE && Loggable(L, |d|, HeadBlocks(d[L.start]))
  }

  // No committed transaction waits in the log.
  predicate Clear(L: Layout, d: Disk) {
    LogFits(L, d) && HeadCount(d[L.start]) == 0
  }

  function LogWrites(L: Layout, datas: seq<Block>): seq<Write> {
    seq(|datas|, t requires 0 <= t < |datas| => Write(L.start + 1 + t, datas[t]))
  }

  function InstallWrites(bs: seq<Word>, datas: seq<Block>): seq<Write>
    requires |bs| == |datas|
  {
    seq(|bs|, t requires 0 <= t < |bs| => Write(bs[t], datas[t]))
  }

  function LogData(L: Layout, d: Disk, n: nat): (s: seq<Block>)
    requires L.start + 1 + n <= |d|
    ensures |s| == n
  {
    d[L.start + 1..L.start + 1 + n]
  }

  function RecoverWrites(L: Layout, d: Disk): seq<Write>
    requires WellFormed(L, d)
  {
    var bs := HeadBlocks(d[L.start]);
    InstallWrites(bs, LogData(L, d, |bs|)) + [Write(L.start, PutHead(d[L.start], []))]
  }

  // The disk that recover_from_log leaves.
  function Recover(L: Layout, d: Disk): Disk
    requires WellFormed(L, d)
  {
    Apply(d, RecoverWrites(L, d))
  }

  // The writes of one commit of the blocks bs holding datas, in order.
  function CommitWrites(L: Layout, head: Block, bs: seq<Word>, datas: seq<Block>): seq<Write>
    requires |bs| == |datas| <= LOGSIZE
  {
    if |bs| == 0 then []
    else
      LogWrites(L, datas) + [Write(L.start, PutHead(head, bs))]
      + InstallWrites(bs, datas) + [Write(L.start, PutHead(PutHead(head, bs), []))]
  }

  // ---- recovery can be cut short anywhere and started again ----

  lemma RecoverKeepsLog(L: Layout, d: Disk, k: nat)
    requires WellFormed(L, d)
    requires k <= HeadCount(d[L.start])
    ensures forall b: nat :: L.Covers(b) ==> Apply(d, RecoverWrites(L, d)[..k])[b] == d[b]
  {
    var ws := RecoverWrites(L, d)[..k];
    forall b: nat | L.Covers(b) ensures Apply(d, ws)[b] == d[b] {
      LastDataNone(ws, b);
      ApplyAt(d, ws, b);
    }
  }

  lemma {:induction false} LastDataPrefix(ws: seq<Write>, k: nat, b: nat)
    requires k <= |ws|
    requires LastData(ws[..k], b).Some?
    ensures LastData(ws, b).Some?
  {
    LastDataNone(ws[..k], b);
    LastDataNone(ws, b);
  }

  // Redoing all writes after a prefix of them is the same as doing them once.
  lemma ApplyPrefixAbsorbed(d: Disk, ws: seq<Write>, k: nat)
    requires k <= |ws|
    ensures Apply(Apply(d, ws[..k]), ws) == Apply(d, ws)
  {
    var d1 := Apply(d, ws[..k]);
    forall b | 0 <= b < |d| ensures Apply(d1, ws)[b] == Apply(d, ws)[b] {
      ApplyAt(d1, ws, b);
      ApplyAt(d, ws, b);
      ApplyAt(d, ws[..k], b);
      if LastData(ws[..k], b).Some? {
        LastDataPrefix(ws, k, b);
      }
    }
  }

  lemma ApplySingle(d: Disk, w: Write)
    ensures Apply(d, [w]) == ApplyOne(d, w)
  {
    assert [w][..0] == [];
  }

  lemma ClearWrites(L: Layout, d: Disk)
    requires Clear(L, d)
    ensures WellFormed(L, d)
    ensures RecoverWrites(L, d) == [Write(L.start, PutHead(d[L.start], []))]
  {
    assert HeadBlocks(d[L.start]) == [];
    assert InstallWrites([], LogData(L, d, 0)) == [];
  }

  // Recovering from a clear log only writes the empty header again.
  lemma ClearRecover(L: Layout, d: Disk)
    requires Clear(L, d)
    ensures WellFormed(L, d)
    ensures Recover(L, d) == d[L.start := PutHead(d[L.start], [])]
  {
    ClearWrites(L, d);
    ApplySingle(d, Write(L.start, PutHead(d[L.start], [])));
  }

  lemma EmptyHead(b: Block)
    ensures HeadCount(PutHead(b, [])) == 0
    ensures PutHead(PutHead(b, []), []) == PutHead(b, [])
  {
    GetSetWord(b, 0, 0, 0);
    SetWordTwice(b, 0, 0);
  }

  lemma RecoverHead(L: Layout, d: Disk)
    requires WellFormed(L, d)
    ensures Recover(L, d)[L.start] == PutHead(d[L.start], [])
  {
  }

  lemma RecoverClears(L: Layout, d: Disk)
    requires WellFormed(L, d)
    ensures Clear(L, Recover(L, d)) && WellFormed(L, Recover(L, d))
    ensures Recover(L, Recover(L, d)) == Recover(L, d)
  {
    EmptyHead(d[L.start]);
    RecoverHead(L, d);
    ClearRecover(L, Recover(L, d));
  }

  lemma RecoveryRestarts(L: Layout, d: Disk, k: nat)
    requires WellFormed(L, d)
    requires k <= |RecoverWrites(L, d)|
    ensures WellFormed(L, Apply(d, RecoverWrites(L, d)[..k]))
    ensures Recover(L, Apply(d, RecoverWrites(L, d)[..k])) == Recover(L, d)
  {
    var ws := RecoverWrites(L, d);
    if k == |ws| {
      assert ws[..k] == ws;
      RecoverClears(L, d);
    } else {
      var d1 := Apply(d, ws[..k]);
      RecoverKeepsLog(L, d, k);
      assert d1[L.start] == d[L.start];
      var n := HeadCount(d[L.start]);
      assert LogData(L, d1, n) == LogData(L, d, n) by {
        forall t | 0 <= t < n ensures LogData(L, d1, n)[t] == LogData(L, d, n)[t] {
          assert L.Covers(L.start + 1 + t);
        }
      }
      assert RecoverWrites(L, d1) == ws;
      ApplyPrefixAbsorbed(d, ws, k);
    }
  }

  // The block writes ws took the disk d with write history h to the disk d' with history h'.
  ghost predicate Trace(d: Disk, h: seq<Write>, ws: seq<Write>, d': Disk, h': seq<Write>) {
    d' == Apply(d, ws) && h' == h + ws
  }

  lemma TraceNext(d: Disk, h: seq<Write>, ws: seq<Write>, t: nat, d1: Disk, h1: seq<Write>)
    requires t < |ws| && Trace(d, h, ws[..t], d1, h1) && ws[t].bno < |d|
    ensures Trace(d, h, ws[..t + 1], d1[ws[t].bno := ws[t].data], h1 + [ws[t]])
  {
    assert ws[..t + 1][..t] == ws[..t];
    assert h + ws[..t + 1] == h + ws[..t] + [ws[t]];
  }

  lemma TraceThen(d: Disk, h: seq<Write>, ws: seq<Write>, d1: Disk, h1: seq<Write>,
                  vs: seq<Write>, d2: Disk, h2: seq<Write>)
    requires Trace(d, h, ws, d1, h1) && Trace(d1, h1, vs, d2, h2)
    ensures Trace(d, h, ws + vs, d2, h2)
  {
    hide Apply;
    ApplyConcat(d, ws, vs);
    assert h + (ws + vs) == h + ws + vs;
  }

  lemma TraceOne(d: Disk, h: seq<Write>, w: Write)
    requires w.bno < |d|
    ensures Trace(d, h, [w], d[w.bno := w.data], h + [w])
  {
    ApplySingle(d, w);
  }

  // ---- one commit, cut anywhere ----

  datatype Group = Group(bs: seq<Word>, datas: seq<Block>)

  predicate ValidGroup(L: Layout, n: nat, g: Group) {
    Loggable(L, n, g.bs) && |g.datas| == |g.bs|
  }

  // The file-system blocks: everything outside the log.
  predicate SameHome(L: Layout, d: Disk, e: Disk) {
    |d| == |e| && forall b :: 0 <= b < |d| && !L.Covers(b) ==> d[b] == e[b]
  }

  // The state that the blocks of the group, written at once, would give.
  function Install(d: Disk, g: Group): (r: Disk)
    requires |g.datas| == |g.bs|
    ensures |r| == |d|
  {
    Apply(d, InstallWrites(g.bs, g.datas))
  }

  lemma LogPhaseKeepsHome(L: Layout, d: Disk, g: Group, k: nat)
    requires LogFits(L, d) && ValidGroup(L, |d|, g) && k <= |g.bs|
    ensures SameHome(L, Apply(d, LogWrites(L, g.datas)[..k]), d)
    ensures Apply(d, LogWrites(L, g.datas)[..k])[L.start] == d[L.start]
  {
    var ws := LogWrites(L, g.datas)[..k];
    forall b: nat | b < |d| && (b == L.start || !L.Covers(b)) ensures Apply(d, ws)[b] == d[b] {
      LastDataNone(ws, b);
      ApplyAt(d, ws, b);
    }
  }

  // The first k of datas lie at base and behind.
  ghost predicate DataAt(e: Disk, base: nat, datas: seq<Block>, k: nat) {
    k <= |datas| && base + |datas| <= |e| && forall t :: 0 <= t < k ==> e[base + t] == datas[t]
  }

  lemma {:induction false} LogPhaseData(L: Layout, d: Disk, datas: seq<Block>, k: nat)
    requires k <= |datas| && L.start + 1 + |datas| <= |d|
    ensures DataAt(Apply(d, LogWrites(L, datas)[..k]), L.start + 1, datas, k)
  {
    if k > 0 {
      LogPhaseData(L, d, datas, k - 1);
      assert LogWrites(L, datas)[..k][..k - 1] == LogWrites(L, datas)[..k - 1];
    }
  }

  // The writes up to and including the header: the commit point.
  function CommitPoint(L: Layout, head: Block, g: Group): seq<Write>
    requires |g.bs| == |g.datas| <= LOGSIZE
  {
    LogWrites(L, g.datas) + [Write(L.start, PutHead(head, g.bs))]
  }

  lemma CommitPointDisk(L: Layout, d: Disk, g: Group)
    requires LogFits(L, d) && ValidGroup(L, |d|, g)
    ensures Apply(d, CommitPoint(L, d[L.start], g))
            == Apply(d, LogWrites(L, g.datas))[L.start := PutHead(d[L.start], g.bs)]
  {
    var lw := LogWrites(L, g.datas);
    var w := Write(L.start, PutHead(d[L.start], g.bs));
    ApplyConcat(d, lw, [w]);
    ApplySingle(Apply(d, lw), w);
  }

  lemma CommitPointHome(L: Layout, d: Disk, g: Group)
    requires LogFits(L, d) && ValidGroup(L, |d|, g)
    ensures SameHome(L, Apply(d, CommitPoint(L, d[L.start], g)), d)
  {
    hide PutHead;
    CommitPointDisk(L, d, g);
    var lw := LogWrites(L, g.datas);
    assert lw[..|g.bs|] == lw;
    LogPhaseKeepsHome(L, d, g, |g.bs|);
  }

  lemma CommitPointData(L: Layout, d: Disk, g: Group)
    requires LogFits(L, d) && ValidGroup(L, |d|, g)
    ensures LogData(L, Apply(d, CommitPoint(L, d[L.start], g)), |g.bs|) == g.datas
  {
    hide PutHead;
    CommitPointDisk(L, d, g);
    hide CommitPoint;
    LogPhaseAll(L, d, g.datas);
  }

  lemma LogPhaseAll(L: Layout, d: Disk, datas: seq<Block>)
    requires L.start + 1 + |datas| <= |d|
    ensures LogData(L, Apply(d, LogWrites(L, datas)), |datas|) == datas
  {
    hide Apply, LogWrites, DataAt;
    var lw := LogWrites(L, datas);
    WholeLog(L, datas);
    LogPhaseData(L, d, datas, |datas|);
    SliceIs(Apply(d, lw), L.start + 1, datas);
  }

  lemma WholeLog(L: Layout, datas: seq<Block>)
    ensures |LogWrites(L, datas)| == |datas| && LogWrites(L, datas)[..|datas|] == LogWrites(L, datas)
  {
  }

  lemma SliceIs(e: Disk, base: nat, datas: seq<Block>)
    requires DataAt(e, base, datas, |datas|)
    ensures base + |datas| <= |e| && e[base..base + |datas|] == datas
  {
  }

  lemma CommitPointHead(L: Layout, d: Disk, g: Group)
    requires LogFits(L, d) && ValidGroup(L, |d|, g)
    ensures var c := Apply(d, CommitPoint(L, d[L.start], g));
      c[L.start] == PutHead(d[L.start], g.bs) && WellFormed(L, c) && HeadBlocks(c[L.start]) == g.bs
  {
    CommitPointDisk(L, d, g);
    HeadRoundTrip(d[L.start], g.bs);
  }

  lemma CommitPointRecovery(L: Layout, d: Disk, g: Group)
    requires LogFits(L, d) && ValidGroup(L, |d|, g)
    ensures var c := Apply(d, CommitPoint(L, d[L.start], g));
      && WellFormed(L, c)
      && RecoverWrites(L, c) == InstallWrites(g.bs, g.datas)
                                + [Write(L.start, PutHead(PutHead(d[L.start], g.bs), []))]
  {
    CommitPointHead(L, d, g);
    CommitPointData(L, d, g);
  }

  // After the commit point, what is left of the commit is exactly what recovery would do.
  lemma CommitIsLogThenRecover(L: Layout, d: Disk, g: Group)
    requires LogFits(L, d) && ValidGroup(L, |d|, g) && |g.bs| > 0
    ensures var c := Apply(d, CommitPoint(L, d[L.start], g));
      && WellFormed(L, c)
      && CommitWrites(L, d[L.start], g.bs, g.datas) == CommitPoint(L, d[L.start], g) + RecoverWrites(L, c)
  {
    CommitPointRecovery(L, d, g);
  }

  lemma InstallSameHome(L: Layout, d: Disk, e: Disk, g: Group)
    requires SameHome(L, d, e) && |g.datas| == |g.bs|
    ensures SameHome(L, Install(d, g), Install(e, g))
  {
    forall b: nat | b < |d| && !L.Covers(b) ensures Install(d, g)[b] == Install(e, g)[b] {
      ApplyAt(d, InstallWrites(g.bs, g.datas), b);
      ApplyAt(e, InstallWrites(g.bs, g.datas), b);
    }
  }

  // A commit that goes through the commit point and then does what recovery does.
  lemma CommitTrace(L: Layout, d: Disk, h: seq<Write>, g: Group, d1: Disk, h1: seq<Write>)
    requires LogFits(L, d) && ValidGroup(L, |d|, g) && |g.bs| > 0
    requires Trace(d, h, CommitPoint(L, d[L.start], g), d1, h1)
    ensures WellFormed(L, d1) && HeadBlocks(d1[L.start]) == g.bs
    ensures forall d2, h2 :: Trace(d1, h1, RecoverWrites(L, d1), d2, h2) ==>
              Trace(d, h, CommitWrites(L, d[L.start], g.bs, g.datas), d2, h2)
  {
    CommitPointHead(L, d, g);
    CommitIsLogThenRecover(L, d, g);
    forall d2, h2 | Trace(d1, h1, RecoverWrites(L, d1), d2, h2)
      ensures Trace(d, h, CommitWrites(L, d[L.start], g.bs, g.datas), d2, h2)
    {
      TraceThen(d, h, CommitPoint(L, d[L.start], g), d1, h1, RecoverWrites(L, d1), d2, h2);
    }
  }

  // Recovery after the commit point installs the whole group.
  lemma RecoverInstalls(L: Layout, d: Disk, g: Group)
    requires LogFits(L, d) && ValidGroup(L, |d|, g)
    ensures var c := Apply(d, CommitPoint(L, d[L.start], g));
      WellFormed(L, c) && SameHome(L, Recover(L, c), Install(d, g))
  {
    CommitPointRecovery(L, d, g);
    CommitPointHome(L, d, g);
    var c := Apply(d, CommitPoint(L, d[L.start], g));
    InstallSameHome(L, c, d, g);
    assert Recover(L, c) == Install(c, g)[L.start := PutHead(PutHead(d[L.start], g.bs), [])] by {
      var w := Write(L.start, PutHead(PutHead(d[L.start], g.bs), []));
      ApplyConcat(c, InstallWrites(g.bs, g.datas), [w]);
      ApplySingle(Install(c, g), w);
    }
  }

  // Recovery turns the disk c into one with the file-system blocks of d.
  predicate RecoversTo(L: Layout, c: Disk, d: Disk) {
    WellFormed(L, c) && SameHome(L, Recover(L, c), d)
  }

  lemma CommitCutEarly(L: Layout, d: Disk, g: Group, k: nat)
    requires Clear(L, d) && ValidGroup(L, |d|, g) && k <= |g.bs|
    ensures RecoversTo(L, Apply(d, LogWrites(L, g.datas)[..k]), d)
  {
    LogPhaseKeepsHome(L, d, g, k);
    ClearRecover(L, Apply(d, LogWrites(L, g.datas)[..k]));
  }

  lemma CommitCutLate(L: Layout, d: Disk, g: Group, k: nat)
    requires Clear(L, d) && ValidGroup(L, |d|, g)
    requires WellFormed(L, Apply(d, CommitPoint(L, d[L.start], g)))
    requires k <= |RecoverWrites(L, Apply(d, CommitPoint(L, d[L.start], g)))|
    ensures var cp := CommitPoint(L, d[L.start], g);
      RecoversTo(L, Apply(d, cp + RecoverWrites(L, Apply(d, cp))[..k]), Install(d, g))
  {
    var cp := CommitPoint(L, d[L.start], g);
    var p := Apply(d, cp);
    ApplyConcat(d, cp, RecoverWrites(L, p)[..k]);
    RecoveryRestarts(L, p, k);
    RecoverInstalls(L, d, g);
  }

  lemma CutEarlyPrefix(L: Layout, d: Disk, g: Group, k: nat)
    requires LogFits(L, d) && ValidGroup(L, |d|, g) && |g.bs| > 0 && k <= |g.bs|
    ensures k <= |CommitWrites(L, d[L.start], g.bs, g.datas)|
    ensures CommitWrites(L, d[L.start], g.bs, g.datas)[..k] == LogWrites(L, g.datas)[..k]
  {
  }

  lemma ClearFits(L: Layout, d: Disk)
    requires Clear(L, d)
    ensures LogFits(L, d) && L.start < |d|
  {
  }

  lemma TakeConcat<T>(a: seq<T>, b: seq<T>, k: nat)
    requires |a| <= k <= |a + b|
    ensures (a + b)[..k] == a + b[..k - |a|]
  {
  }

  // A crash after k of the block writes of a commit: recovery gives the state before the
  // group when the header has not been written, and the state with the whole group when it has.
  lemma CommitAtomic(L: Layout, d: Disk, g: Group, k: nat)
    requires Clear(L, d) && ValidGroup(L, |d|, g) && |g.bs| > 0
    requires k <= |CommitWrites(L, d[L.start], g.bs, g.datas)|
    ensures RecoversTo(L, Apply(d, CommitWrites(L, d[L.start], g.bs, g.datas)[..k]),
                       if k <= |g.bs| then d else Install(d, g))
  {
    ClearFits(L, d);
    hide Clear, RecoversTo, Apply, Install, RecoverWrites, CommitWrites, LogFits;
    if k <= |g.bs| {
      CutEarlyPrefix(L, d, g, k);
      CommitCutEarly(L, d, g, k);
    } else {
      CommitIsLogThenRecover(L, d, g);
      var cp := CommitPoint(L, d[L.start], g);
      assert |cp| == |g.bs| + 1;
      TakeConcat(cp, RecoverWrites(L, Apply(d, cp)), k);
      CommitCutLate(L, d, g, k - |cp|);
    }
  }

  // A commit that is not interrupted installs the group and leaves the log clear.
  lemma CommitInstalls(L: Layout, d: Disk, g: Group)
    requires Clear(L, d) && ValidGroup(L, |d|, g)
    ensures var c := Apply(d, CommitWrites(L, d[L.start], g.bs, g.datas));
      Clear(L, c) && SameHome(L, c, Install(d, g))
  {
    if |g.bs| == 0 {
      assert InstallWrites(g.bs, g.datas) == [];
    } else {
      CommitIsLogThenRecover(L, d, g);
      var cp := CommitPoint(L, d[L.start], g);
      ApplyConcat(d, cp, RecoverWrites(L, Apply(d, cp)));
      RecoverInstalls(L, d, g);
      RecoverClears(L, Apply(d, cp));
    }
  }

  // ---- whole runs ----

  // A crash in the middle of recovery, any number of times: each entry of cuts is the number
  // of block writes an attempt got to make.  The last attempt is finished.
  function RecoverAfter(L: Layout, d: Disk, cuts: seq<nat>): (r: Disk)
    requires WellFormed(L, d)
    ensures Clear(L, r) && r == Recover(L, d)
    decreases |cuts|
  {
    if cuts == [] then
      RecoverClears(L, d);
      Recover(L, d)
    else
      var ws := RecoverWrites(L, d);
      var k := if cuts[0] < |ws| then cuts[0] else |ws|;
      RecoveryRestarts(L, d, k);
      RecoverAfter(L, Apply(d, ws[..k]), cuts[1..])
  }

  // What happens to the disk between two moments at which the log is clear.
  datatype Event =
    | Commit(g: Group)                                    // a commit that runs to its end
    | CommitCut(g: Group, at: nat, cuts: seq<nat>)        // power fails after `at` block writes
    | Reboot(cuts: seq<nat>)                              // power fails while no commit runs

  predicate ValidEvent(L: Layout, n: nat, e: Event) {
    match e
    case Commit(g) => ValidGroup(L, n, g)
    case CommitCut(g, _, _) => ValidGroup(L, n, g)
    case Reboot(_) => true
  }

  predicate Survives(e: Event) {
    match e
    case Commit(g) => true
    case CommitCut(g, at, _) => at > |g.bs|
    case Reboot(_) => false
  }

  // The disk that a commit leaves when power fails after `at` of its block writes.
  function CutDisk(L: Layout, d: Disk, g: Group, at: nat): (r: Disk)
    requires Clear(L, d) && ValidGroup(L, |d|, g)
    ensures |r| == |d|
  {
    var ws := CommitWrites(L, d[L.start], g.bs, g.datas);
    Apply(d, ws[..if at < |ws| then at else |ws|])
  }

  lemma CutStep(L: Layout, d: Disk, g: Group, at: nat)
    requires Clear(L, d) && ValidGroup(L, |d|, g)
    ensures RecoversTo(L, CutDisk(L, d, g, at), if at > |g.bs| then Install(d, g) else d)
  {
    if |g.bs| == 0 {
      assert InstallWrites(g.bs, g.datas) == [];
      ClearRecover(L, d);
    } else {
      var ws := CommitWrites(L, d[L.start], g.bs, g.datas);
      CommitAtomic(L, d, g, if at < |ws| then at else |ws|);
    }
  }

  function Step(L: Layout, d: Disk, e: Event): (r: Disk)
    requires Clear(L, d) && ValidEvent(L, |d|, e)
    ensures Clear(L, r) && |r| == |d|
    ensures SameHome(L, r, if Survives(e) then Install(d, e.g) else d)
  {
    match e
    case Commit(g) =>
      CommitInstalls(L, d, g);
      Apply(d, CommitWrites(L, d[L.start], g.bs, g.datas))
    case CommitCut(g, at, cuts) =>
      CutStep(L, d, g, at);
      RecoverAfter(L, CutDisk(L, d, g, at), cuts)
    case Reboot(cuts) =>
      ClearRecover(L, d);
      RecoverAfter(L, d, cuts)
  }

  function Run(L: Layout, d: Disk, es: seq<Event>): (r: Disk)
    requires Clear(L, d)
    requires forall i :: 0 <= i < |es| ==> ValidEvent(L, |d|, es[i])
    ensures Clear(L, r) && |r| == |d|
  {
    if es == [] then d
    else Step(L, Run(L, d, es[..|es| - 1]), es[|es| - 1])
  }

  // The groups that made it, whole and in order, installed on a disk that never fails.
  function Ideal(L: Layout, d: Disk, es: seq<Event>): (r: Disk)
    requires forall i :: 0 <= i < |es| ==> ValidEvent(L, |d|, es[i])
    ensures |r| == |d|
  {
    if es == [] then d
    else
      var before := Ideal(L, d, es[..|es| - 1]);
      var e := es[|es| - 1];
      assert ValidEvent(L, |d|, e);
      if Survives(e) then Install(before, e.g) else before
  }

  // Crash atomicity over whole runs: whatever commits and crashes the disk goes through, its
  // file-system blocks are those of a failure-free disk on which a group was installed
  // whole if its header write was reached, and not at all otherwise.
  lemma {:induction false} CrashAtomicity(L: Layout, d: Disk, es: seq<Event>)
    requires Clear(L, d)
    requires forall i :: 0 <= i < |es| ==> ValidEvent(L, |d|, es[i])
    ensures SameHome(L, Run(L, d, es), Ideal(L, d, es))
  {
    if es != [] {
      var front, e := es[..|es| - 1], es[|es| - 1];
      CrashAtomicity(L, d, front);
      if Survives(e) {
        InstallSameHome(L, Run(L, d, front), Ideal(L, d, front), e.g);
      }
    }
  }

  // ---- the life of a disk between reboots ----

  ghost predicate ValidGroups(L: Layout, n: nat, gs: seq<Group>) {
    forall i :: 0 <= i < |gs| ==> ValidGroup(L, n, gs[i]) && |gs[i].bs| > 0
  }

  lemma ValidFront(L: Layout, n: nat, gs: seq<Group>)
    requires ValidGroups(L, n, gs) && gs != []
    ensures ValidGroups(L, n, gs[..|gs| - 1]) && ValidGroup(L, n, gs[|gs| - 1]) && |gs[|gs| - 1].bs| > 0
  {
  }

  // All block writes since boot, when the groups gs have been committed one after the other.
  function History(L: Layout, d: Disk, gs: seq<Group>): seq<Write>
    requires Clear(L, d) && ValidGroups(L, |d|, gs)
  {
    if gs == [] then []
    else
      var front, g := gs[..|gs| - 1], gs[|gs| - 1];
      ValidFront(L, |d|, gs);
      var ws := History(L, d, front);
      ws + CommitWrites(L, Apply(d, ws)[L.start], g.bs, g.datas)
  }

  function InstallAll(L: Layout, d: Disk, gs: seq<Group>): (r: Disk)
    requires ValidGroups(L, |d|, gs)
    ensures |r| == |d|
  {
    if gs == [] then d
    else
      ValidFront(L, |d|, gs);
      Install(InstallAll(L, d, gs[..|gs| - 1]), gs[|gs| - 1])
  }

  // One more commit extends the history by its writes.
  lemma CommitExtendsHistory(L: Layout, d: Disk, h: seq<Write>, gs: seq<Group>, g: Group,
                             d1: Disk, h1: seq<Write>, d2: Disk, h2: seq<Write>)
    requires Clear(L, d) && ValidGroups(L, |d|, gs)
    requires ValidGroup(L, |d|, g) && |g.bs| > 0
    requires Trace(d, h, History(L, d, gs), d1, h1)
    requires Trace(d1, h1, CommitWrites(L, d1[L.start], g.bs, g.datas), d2, h2)
    ensures ValidGroups(L, |d|, gs + [g])
    ensures Trace(d, h, History(L, d, gs + [g]), d2, h2)
  {
    hide CommitWrites, Apply;
    assert (gs + [g])[..|gs|] == gs;
    TraceThen(d, h, History(L, d, gs), d1, h1, CommitWrites(L, d1[L.start], g.bs, g.datas), d2, h2);
  }

  lemma {:induction false} HistoryInstalls(L: Layout, d: Disk, gs: seq<Group>)
    requires Clear(L, d) && ValidGroups(L, |d|, gs)
    ensures Clear(L, Apply(d, History(L, d, gs)))
    ensures SameHome(L, Apply(d, History(L, d, gs)), InstallAll(L, d, gs))
  {
    if gs != [] {
      var front, g := gs[..|gs| - 1], gs[|gs| - 1];
      ValidFront(L, |d|, gs);
      HistoryInstalls(L, d, front);
      var ws := History(L, d, front);
      var d1 := Apply(d, ws);
      ApplyConcat(d, ws, CommitWrites(L, d1[L.start], g.bs, g.datas));
      CommitInstalls(L, d1, g);
      InstallSameHome(L, d1, InstallAll(L, d, front), g);
    }
  }

  // m of the groups gs had their header written within the first k block writes.
  predicate Durable(L: Layout, d: Disk, gs: seq<Group>, k: nat, m: nat)
    requires Clear(L, d) && ValidGroups(L, |d|, gs)
  {
    && m <= |gs|
    && (m > 0 ==> k > |History(L, d, gs[..m - 1])| + |gs[m - 1].bs|)
    && (m < |gs| ==> k <= |History(L, d, gs[..m])| + |gs[m].bs|)
  }

  lemma CrashInLast(L: Layout, d: Disk, gs: seq<Group>, k: nat)
    requires Clear(L, d) && ValidGroups(L, |d|, gs) && gs != []
    requires |History(L, d, gs[..|gs| - 1])| < k <= |History(L, d, gs)|
    ensures var n := |gs| - 1;
      RecoversTo(L, Apply(d, History(L, d, gs)[..k]),
                 InstallAll(L, d, if k - |History(L, d, gs[..n])| <= |gs[n].bs| then gs[..n] else gs))
  {
    hide CommitWrites, WellFormed, SameHome;
    var front, g := gs[..|gs| - 1], gs[|gs| - 1];
    ValidFront(L, |d|, gs);
    var ws := History(L, d, front);
    HistoryInstalls(L, d, front);
    var d1 := Apply(d, ws);
    var cw := CommitWrites(L, d1[L.start], g.bs, g.datas);
    var j := k - |ws|;
    TakeConcat(ws, cw, k);
    ApplyConcat(d, ws, cw[..j]);
    CommitAtomic(L, d1, g, j);
    InstallSameHome(L, d1, InstallAll(L, d, front), g);
    var target := if j <= |g.bs| then d1 else Install(d1, g);
    RecoversTrans(L, Apply(d1, cw[..j]), target,
                  if j <= |g.bs| then InstallAll(L, d, front) else InstallAll(L, d, gs));
  }

  lemma RecoversTrans(L: Layout, c: Disk, d: Disk, e: Disk)
    requires RecoversTo(L, c, d) && SameHome(L, d, e)
    ensures RecoversTo(L, c, e)
  {
  }

  lemma NothingHappened(L: Layout, d: Disk)
    requires Clear(L, d)
    ensures RecoversTo(L, Apply(d, []), InstallAll(L, d, []))
  {
    ClearRecover(L, d);
  }

  lemma HistorySnoc(L: Layout, d: Disk, gs: seq<Group>)
    requires Clear(L, d) && ValidGroups(L, |d|, gs)
    requires gs != []
    ensures |History(L, d, gs)| > |History(L, d, gs[..|gs| - 1])| + |gs[|gs| - 1].bs|
  {
  }

  lemma DurableFront(L: Layout, d: Disk, gs: seq<Group>, k: nat, m: nat)
    requires Clear(L, d) && ValidGroups(L, |d|, gs) && gs != []
    requires ValidGroups(L, |d|, gs[..|gs| - 1]) && Durable(L, d, gs[..|gs| - 1], k, m)
    requires k <= |History(L, d, gs[..|gs| - 1])|
    ensures Durable(L, d, gs, k, m)
  {
    hide CommitWrites, ValidGroup;
    var front := gs[..|gs| - 1];
    assert front[..m] == gs[..m];
    if m > 0 {
      assert front[..m - 1] == gs[..m - 1];
    }
  }

  lemma DurableLast(L: Layout, d: Disk, gs: seq<Group>, k: nat)
    requires Clear(L, d) && ValidGroups(L, |d|, gs) && gs != []
    requires |History(L, d, gs[..|gs| - 1])| < k
    ensures var n := |gs| - 1;
      Durable(L, d, gs, k, if k - |History(L, d, gs[..n])| <= |gs[n].bs| then n else |gs|)
  {
    hide CommitWrites, ValidGroup;
    var front := gs[..|gs| - 1];
    if |gs| > 1 {
      HistorySnoc(L, d, front);
      assert front[..|gs| - 2] == gs[..|gs| - 2];
    }
  }

  lemma HistoryPrefix(L: Layout, d: Disk, gs: seq<Group>, k: nat)
    requires Clear(L, d) && ValidGroups(L, |d|, gs) && gs != []
    requires k <= |History(L, d, gs[..|gs| - 1])|
    ensures k <= |History(L, d, gs)| && History(L, d, gs)[..k] == History(L, d, gs[..|gs| - 1])[..k]
  {
    hide CommitWrites, ValidGroup;
  }

  // Power fails after any number of the block writes of a whole history: recovery gives the state
  // after the first m groups, for exactly the m groups whose header write had been made.
  lemma {:induction false} CrashAnywhere(L: Layout, d: Disk, gs: seq<Group>, k: nat) returns (m: nat)
    requires Clear(L, d) && ValidGroups(L, |d|, gs)
    requires k <= |History(L, d, gs)|
    ensures Durable(L, d, gs, k, m)
    ensures RecoversTo(L, Apply(d, History(L, d, gs)[..k]), InstallAll(L, d, gs[..m]))
  {
    hide CommitWrites, RecoversTo, Apply, InstallAll, ValidGroup;
    if gs == [] {
      m := 0;
      assert History(L, d, gs)[..k] == [] && gs[..m] == [];
      NothingHappened(L, d);
    } else if k <= |History(L, d, gs[..|gs| - 1])| {
      ValidFront(L, |d|, gs);
      m := CrashAnywhere(L, d, gs[..|gs| - 1], k);
      DurableFront(L, d, gs, k, m);
      HistoryPrefix(L, d, gs, k);
      assert gs[..|gs| - 1][..m] == gs[..m];
    } else {
      var n := |gs| - 1;
      m := if k - |History(L, d, gs[..n])| <= |gs[n].bs| then n else |gs|;
      DurableLast(L, d, gs, k);
      CrashInLast(L, d, gs, k);
      assert gs[..|gs|] == gs;
    }
  }
}
