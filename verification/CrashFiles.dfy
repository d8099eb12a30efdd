// What the redo log means for files: the disk that recovery leaves after a crash has the files, whole and
// consistent, of a moment between two committed groups (log.c under fs.c).
module CrashFiles {
  import opened Params
  import opened Blocks
  import opened Bits
  import opened FsState
  import opened FsGrow
  import opened FileBytes
  import opened Dinode
  import opened FileFrame
  import opened MkfsImage
  import LR = LogRecovery

  // The log lies between the super block and the inode blocks.
  predicate LogBelow(L: LR.Layout, sb: Super) {
    2 <= L.start && L.start + L.size <= sb.inodestart
  }

  // The inodes stored on the disk and the free map agree.
  ghost predicate FilesOk(sb: Super, d: LR.Disk) {
    && sb.Ok() && |d| == sb.size
    && exists own :: Consistent(sb, Nodes(sb, d), d, own)
  }

  // The same inodes, and the same bytes in every file without holes.
  ghost predicate SameFiles(sb: Super, d: LR.Disk, e: LR.Disk)
    requires FilesOk(sb, d) && FilesOk(sb, e)
  {
    && Nodes(sb, e) == Nodes(sb, d)
    && forall j :: 0 <= j < sb.ninodes && NoHoles(Nodes(sb, d)[j], d) ==>
         NoHoles(Nodes(sb, e)[j], e) && Content(Nodes(sb, e)[j], e) == Content(Nodes(sb, d)[j], d)
  }

  // The blocks of the log do not matter for the files.
  lemma HomeFiles(L: LR.Layout, sb: Super, d: LR.Disk, e: LR.Disk)
    requires LogBelow(L, sb) && LR.SameHome(L, e, d) && FilesOk(sb, d)
    ensures FilesOk(sb, e) && SameFiles(sb, d, e)
  {
    hide Own, Content, NoHoles, RefAt, Nodes;
    var own :| Consistent(sb, Nodes(sb, d), d, own);
    var n := Nodes(sb, d);
    HomeNodes(sb, d, e);
    HomeRefs(sb, n, d, e, own);
    forall j | 0 <= j < sb.ninodes && NoHoles(n[j], d) ensures NoHoles(n[j], e) && Content(n[j], e) == Content(n[j], d) {
      HomeFile(sb, n, d, e, own, j);
    }
  }

  lemma HomeNodes(sb: Super, d: LR.Disk, e: LR.Disk)
    requires sb.Ok() && |d| == sb.size && |e| == sb.size && forall b :: sb.inodestart <= b < sb.size ==> e[b] == d[b]
    ensures Nodes(sb, e) == Nodes(sb, d)
  {
    hide GetInode;
    forall j | 0 <= j < sb.ninodes ensures DiskInode(sb, e, j) == DiskInode(sb, d, j) {
      IBlockBelow(sb, j);
    }
  }

  lemma HomeRefs(sb: Super, n: seq<Inode>, d: LR.Disk, e: LR.Disk, own: map<nat, Slot>)
    requires Consistent(sb, n, d, own) && |e| == sb.size && forall b :: sb.inodestart <= b < sb.size ==> e[b] == d[b]
    ensures Consistent(sb, n, e, own) && SameRefs(n, d, n, e, {})
  {
    hide GetBit, GetWord;
    forall i, s | 0 <= i < |n| && 0 <= s < SLOTS ensures RefAt(n, e, i, s) == RefAt(n, d, i, s) {
      if n[i].addrs[NDIRECT] != 0 {
        IndirectOwned(sb, n, d, own, {}, {}, i);
      }
    }
    hide RefAt;
    OwnSame(sb, n, d, n, e, own, {}, {});
  }

  lemma HomeFile(sb: Super, n: seq<Inode>, d: LR.Disk, e: LR.Disk, own: map<nat, Slot>, j: nat)
    requires Consistent(sb, n, d, own) && |e| == sb.size && forall b :: sb.inodestart <= b < sb.size ==> e[b] == d[b]
    requires Consistent(sb, n, e, own) && SameRefs(n, d, n, e, {}) && j < |n| && NoHoles(n[j], d)
    ensures NoHoles(n[j], e) && Content(n[j], e) == Content(n[j], d)
  {
    hide BitAt, RefAt, NoHoles, Content;
    forall s | 0 <= s < SLOTS ensures SameSlot(n, d, n, e, j, s) {
      assert RefAt(n, e, j, s) == RefAt(n, d, j, s);
      if RefAt(n, d, j, s) != 0 {
        RefInRange(sb, n, d, own, j, s);
      }
    }
    SameContent(n, d, n, e, j);
  }

  // The disk after the groups gs[..t], for every t, has consistent files: an operation ends with the files
  // consistent, and a group is a whole number of operations.
  ghost predicate GroupsOk(L: LR.Layout, sb: Super, d: LR.Disk, gs: seq<LR.Group>) {
    && LR.ValidGroups(L, |d|, gs)
    && forall t :: 0 <= t <= |gs| ==> FilesOk(sb, LR.InstallAll(L, d, gs[..t]))
  }

  // Recovery turns the disk c into one with the files of d.
  ghost predicate RecoversFiles(L: LR.Layout, sb: Super, c: LR.Disk, d: LR.Disk) {
    && LR.WellFormed(L, c) && FilesOk(sb, d)
    && FilesOk(sb, LR.Recover(L, c)) && SameFiles(sb, d, LR.Recover(L, c))
  }

  // Power fails after any number of the block writes of a whole history.  Recovery gives files that are
  // consistent, and each reads as it did right after the first m groups, for exactly the m groups whose
  // header write had been made.
  lemma CrashKeepsFiles(L: LR.Layout, sb: Super, d: LR.Disk, gs: seq<LR.Group>, k: nat) returns (m: nat)
    requires LogBelow(L, sb) && LR.Clear(L, d) && GroupsOk(L, sb, d, gs) && k <= |LR.History(L, d, gs)|
    ensures LR.Durable(L, d, gs, k, m)
    ensures RecoversFiles(L, sb, LR.Apply(d, LR.History(L, d, gs)[..k]), LR.InstallAll(L, d, gs[..m]))
  {
    hide FilesOk, SameFiles, LR.Apply, LR.History, LR.InstallAll, LR.WellFormed, LR.Recover;
    m := LR.CrashAnywhere(L, d, gs, k);
    var c := LR.Apply(d, LR.History(L, d, gs)[..k]);
    HomeFiles(L, sb, LR.InstallAll(L, d, gs[..m]), LR.Recover(L, c));
  }

  // The same over runs with any number of crashes, also inside recovery: the files are those of a disk
  // that never failed and got the surviving groups.
  lemma CrashRunKeepsFiles(L: LR.Layout, sb: Super, d: LR.Disk, es: seq<LR.Event>)
    requires LogBelow(L, sb) && LR.Clear(L, d)
    requires forall i :: 0 <= i < |es| ==> LR.ValidEvent(L, |d|, es[i])
    requires FilesOk(sb, LR.Ideal(L, d, es))
    ensures FilesOk(sb, LR.Run(L, d, es)) && SameFiles(sb, LR.Ideal(L, d, es), LR.Run(L, d, es))
  {
    hide FilesOk, SameFiles;
    LR.CrashAtomicity(L, d, es);
    HomeFiles(L, sb, LR.Ideal(L, d, es), LR.Run(L, d, es));
  }

  // A disk whose log blocks are zero has no transaction to redo.
  lemma ZeroLogClear(L: LR.Layout, sb: Super, d: LR.Disk)
    requires LogBelow(L, sb) && L.size > 0 && sb.Ok() && |d| == sb.size && d[L.start] == ZeroBlock()
    ensures LR.Clear(L, d)
  {
    hide ZeroBlock, GetWord;
    ZeroBlockWords(0);
  }

  // ---- from operations to groups ----

  // A group as commit gets it: some operations, and the blocks they logged with the data at the end.
  datatype Commit = Commit(ops: seq<Op>, g: LR.Group)

  function Logged(ops: seq<Op>): set<nat> {
    if ops == [] then {} else Logged(ops[..|ops| - 1]) + ops[|ops| - 1].logged
  }

  // The group lists exactly the blocks that were logged, with their last data, and the log has room.
  ghost predicate CommitOk(L: LR.Layout, sb: Super, v: Op, c: Commit) {
    && OpsRun(sb, v, c.ops)
    && 0 < |c.g.bs| == |c.g.datas| <= LOGSIZE && |c.g.bs| < L.size
    && (forall t :: 0 <= t < |c.g.bs| ==> c.g.bs[t] in Logged(c.ops))
    && (forall b :: b in Logged(c.ops) ==> exists t :: 0 <= t < |c.g.bs| && c.g.bs[t] == b)
    && DataOf(AfterOps(v, c.ops).blk, c.g)
  }

  predicate DataOf(b: seq<Block>, g: LR.Group) {
    |g.datas| == |g.bs| && forall t :: 0 <= t < |g.bs| ==> g.bs[t] < |b| && g.datas[t] == b[g.bs[t]]
  }

  lemma {:induction false} OpsMean(sb: Super, v: Op, ops: seq<Op>)
    requires OpsRun(sb, v, ops)
    ensures var u := AfterOps(v, ops);
      Stored(v.blk, u.blk, Logged(ops)) && Above(sb, Logged(ops)) && (Settled(sb, v.nodes, v.blk) ==> Settled(sb, u.nodes, u.blk))
  {
    hide Settled;
    if ops != [] {
      OpsMean(sb, v, ops[..|ops| - 1]);
    }
  }

  // What block c gets from a group that lists it, or does not.
  lemma {:induction false} LastOf(ws: seq<LR.Write>, c: nat)
    ensures match LR.LastData(ws, c)
            case Some(x) => exists t :: 0 <= t < |ws| && ws[t].bno == c && ws[t].data == x
            case None => forall t :: 0 <= t < |ws| ==> ws[t].bno != c
  {
    if ws != [] {
      LastOf(ws[..|ws| - 1], c);
    }
  }

  // Installing the group on the disk before it gives the blocks after the operations.
  lemma GroupInstalls(b0: seq<Block>, b1: seq<Block>, l: set<nat>, g: LR.Group)
    requires Stored(b0, b1, l) && DataOf(b1, g)
    requires forall b :: b in l ==> exists t :: 0 <= t < |g.bs| && g.bs[t] == b
    ensures LR.Install(b0, g) == b1
  {
    var ws := LR.InstallWrites(g.bs, g.datas);
    var d := LR.Apply(b0, ws);
    forall c | 0 <= c < |b0| ensures d[c] == b1[c] {
      LR.ApplyAt(b0, ws, c);
      LastOf(ws, c);
      hide LR.Apply, LR.LastData;
      if c in l {
        var t :| 0 <= t < |g.bs| && g.bs[t] == c;
        assert ws[t].bno == c;
      }
    }
  }

  function AfterCommits(v: Op, cs: seq<Commit>): Op {
    if cs == [] then v else AfterOps(AfterCommits(v, cs[..|cs| - 1]), cs[|cs| - 1].ops)
  }

  ghost predicate CommitsOk(L: LR.Layout, sb: Super, v: Op, cs: seq<Commit>) {
    cs == [] ||
    (CommitsOk(L, sb, v, cs[..|cs| - 1]) && CommitOk(L, sb, AfterCommits(v, cs[..|cs| - 1]), cs[|cs| - 1]))
  }

  function Groups(cs: seq<Commit>): (gs: seq<LR.Group>)
    ensures |gs| == |cs|
  {
    if cs == [] then [] else Groups(cs[..|cs| - 1]) + [cs[|cs| - 1].g]
  }

  lemma CommitValid(L: LR.Layout, sb: Super, v: Op, c: Commit)
    requires LogBelow(L, sb) && Settled(sb, v.nodes, v.blk) && CommitOk(L, sb, v, c)
    ensures LR.ValidGroup(L, sb.size, c.g) && |c.g.bs| > 0 && LR.Install(v.blk, c.g) == AfterOps(v, c.ops).blk
    ensures var u := AfterOps(v, c.ops); Settled(sb, u.nodes, u.blk)
  {
    OpsMean(sb, v, c.ops);
    assert |v.blk| == sb.size;
    hide Settled, OpsRun, Logged;
    GroupInstalls(v.blk, AfterOps(v, c.ops).blk, Logged(c.ops), c.g);
  }

  lemma OneMoreGroup(L: LR.Layout, d: LR.Disk, gs: seq<LR.Group>, g: LR.Group)
    requires LR.ValidGroups(L, |d|, gs) && LR.ValidGroup(L, |d|, g) && |g.bs| > 0
    ensures LR.ValidGroups(L, |d|, gs + [g]) && LR.InstallAll(L, d, gs + [g]) == LR.Install(LR.InstallAll(L, d, gs), g)
  {
    hide LR.Install;
    assert (gs + [g])[..|gs|] == gs;
  }

  // After the commits cs the disk holds the blocks that the operations made, for every number of commits.
  lemma {:induction false} CommitsInstall(L: LR.Layout, sb: Super, v: Op, cs: seq<Commit>)
    requires LogBelow(L, sb) && Settled(sb, v.nodes, v.blk) && CommitsOk(L, sb, v, cs)
    ensures |v.blk| == sb.size && LR.ValidGroups(L, sb.size, Groups(cs))
    ensures var u := AfterCommits(v, cs);
      Settled(sb, u.nodes, u.blk) && LR.InstallAll(L, v.blk, Groups(cs)) == u.blk
  {
    assert |v.blk| == sb.size;
    hide Settled, LR.Install, LR.ValidGroup, CommitOk, AfterOps, LogBelow;
    if cs != [] {
      var front := cs[..|cs| - 1];
      CommitsInstall(L, sb, v, front);
      CommitValid(L, sb, AfterCommits(v, front), cs[|cs| - 1]);
      OneMoreGroup(L, v.blk, Groups(front), cs[|cs| - 1].g);
      assert Groups(cs) == Groups(front) + [cs[|cs| - 1].g];
    }
  }

  lemma {:induction false} CommitsPrefix(L: LR.Layout, sb: Super, v: Op, cs: seq<Commit>, t: nat)
    requires t <= |cs| && CommitsOk(L, sb, v, cs)
    ensures CommitsOk(L, sb, v, cs[..t]) && Groups(cs)[..t] == Groups(cs[..t])
  {
    if t < |cs| {
      CommitsPrefix(L, sb, v, cs[..|cs| - 1], t);
      assert cs[..|cs| - 1][..t] == cs[..t];
    } else {
      assert cs[..t] == cs;
    }
  }

  lemma SettledFiles(sb: Super, v: Op)
    requires Settled(sb, v.nodes, v.blk)
    ensures FilesOk(sb, v.blk) && Nodes(sb, v.blk) == v.nodes
  {
  }

  lemma CommitsGive(L: LR.Layout, sb: Super, v: Op, cs: seq<Commit>)
    requires LogBelow(L, sb) && Settled(sb, v.nodes, v.blk) && CommitsOk(L, sb, v, cs)
    ensures GroupsOk(L, sb, v.blk, Groups(cs))
  {
    hide Settled, FilesOk, LR.InstallAll, CommitsOk;
    CommitsInstall(L, sb, v, cs);
    forall t | 0 <= t <= |cs| ensures FilesOk(sb, LR.InstallAll(L, v.blk, Groups(cs)[..t])) {
      CommitsPrefix(L, sb, v, cs, t);
      CommitsInstall(L, sb, v, cs[..t]);
      SettledFiles(sb, AfterCommits(v, cs[..t]));
    }
  }

  // Operations on a settled file system, committed in any groups; power fails after any number of block
  // writes.  Recovery gives the files as they were right after the operations of the first m groups, for
  // exactly the m groups whose header write had been made.
  lemma CrashAfterOps(L: LR.Layout, sb: Super, v: Op, cs: seq<Commit>, k: nat) returns (m: nat)
    requires LogBelow(L, sb) && Settled(sb, v.nodes, v.blk) && CommitsOk(L, sb, v, cs) && LR.Clear(L, v.blk)
    ensures GroupsOk(L, sb, v.blk, Groups(cs))
    ensures k <= |LR.History(L, v.blk, Groups(cs))| ==>
              && LR.Durable(L, v.blk, Groups(cs), k, m)
              && RecoversFiles(L, sb, LR.Apply(v.blk, LR.History(L, v.blk, Groups(cs))[..k]), AfterCommits(v, cs[..m]).blk)
              && Nodes(sb, AfterCommits(v, cs[..m]).blk) == AfterCommits(v, cs[..m]).nodes
  {
    hide Settled, RecoversFiles, LR.InstallAll, CommitsOk, LR.History, LR.Apply, LR.Clear;
    CommitsGive(L, sb, v, cs);
    m := 0;
    if k > |LR.History(L, v.blk, Groups(cs))| {
      return;
    }
    m := CrashKeepsFiles(L, sb, v.blk, Groups(cs), k);
    CommitsPrefix(L, sb, v, cs, m);
    CommitsInstall(L, sb, v, cs[..m]);
    SettledFiles(sb, AfterCommits(v, cs[..m]));
  }

  // ---- many lives ----

  // A life of the file system: operations are committed in the groups of cs until power fails after k of
  // the block writes; cuts says how far recovery comes each time it is cut off.
  datatype Life = Life(cs: seq<Commit>, k: nat, cuts: seq<nat>)

  // What a boot finds: a log with nothing to redo, and files in order.
  ghost predicate Started(L: LR.Layout, sb: Super, d: LR.Disk) {
    LogBelow(L, sb) && LR.Clear(L, d) && FilesOk(sb, d)
  }

  function View(sb: Super, d: LR.Disk): Op
    requires sb.Ok() && |d| == sb.size
  {
    Op(Nodes(sb, d), d, {})
  }

  // The operations of the life start from the files that the disk holds.
  ghost predicate LifeOk(L: LR.Layout, sb: Super, d: LR.Disk, x: Life)
    requires Started(L, sb, d)
  {
    CommitsOk(L, sb, View(sb, d), x.cs)
  }

  // What the power failure leaves.
  function CrashDisk(L: LR.Layout, d: LR.Disk, gs: seq<LR.Group>, k: nat): LR.Disk
    requires LR.Clear(L, d) && LR.ValidGroups(L, |d|, gs)
  {
    var ws := LR.History(L, d, gs);
    LR.Apply(d, ws[..if k < |ws| then k else |ws|])
  }

  lemma StartedSettled(L: LR.Layout, sb: Super, d: LR.Disk)
    requires Started(L, sb, d)
    ensures var v := View(sb, d); Settled(sb, v.nodes, v.blk)
  {
    hide Own, Nodes;
  }

  // The files after the first m groups, for those m that the log made durable, are those on disk e.
  ghost predicate KeptBy(L: LR.Layout, sb: Super, d: LR.Disk, x: Life, e: LR.Disk, m: nat)
    requires Started(L, sb, d) && LR.ValidGroups(L, |d|, Groups(x.cs))
  {
    var ws := LR.History(L, d, Groups(x.cs));
    && LR.Durable(L, d, Groups(x.cs), if x.k < |ws| then x.k else |ws|, m)
    && FilesOk(sb, AfterCommits(View(sb, d), x.cs[..m]).blk) && FilesOk(sb, e)
    && SameFiles(sb, AfterCommits(View(sb, d), x.cs[..m]).blk, e)
  }

  lemma LifeKeeps(L: LR.Layout, sb: Super, d: LR.Disk, x: Life) returns (m: nat)
    requires Started(L, sb, d) && LifeOk(L, sb, d, x)
    ensures LR.ValidGroups(L, |d|, Groups(x.cs)) && LR.WellFormed(L, CrashDisk(L, d, Groups(x.cs), x.k))
    ensures var e := LR.Recover(L, CrashDisk(L, d, Groups(x.cs), x.k)); Started(L, sb, e) && KeptBy(L, sb, d, x, e, m)
  {
    StartedSettled(L, sb, d);
    CommitsGive(L, sb, View(sb, d), x.cs);
    var ws := LR.History(L, d, Groups(x.cs));
    hide Settled, FilesOk, SameFiles, CommitsOk, LR.History, LR.Apply, LR.InstallAll, LR.Durable, Nodes;
    var k := if x.k < |ws| then x.k else |ws|;
    m := CrashAfterOps(L, sb, View(sb, d), x.cs, k);
    assert CrashDisk(L, d, Groups(x.cs), x.k) == LR.Apply(d, ws[..k]);
    LR.RecoverClears(L, CrashDisk(L, d, Groups(x.cs), x.k));
  }

  lemma LifeFits(L: LR.Layout, sb: Super, d: LR.Disk, x: Life)
    requires Started(L, sb, d) && LifeOk(L, sb, d, x)
    ensures LR.ValidGroups(L, |d|, Groups(x.cs)) && LR.WellFormed(L, CrashDisk(L, d, Groups(x.cs), x.k))
  {
    var m := LifeKeeps(L, sb, d, x);
  }

  // The disk that the next boot finds.
  function NextDisk(L: LR.Layout, sb: Super, d: LR.Disk, x: Life): LR.Disk
    requires Started(L, sb, d) && LifeOk(L, sb, d, x)
  {
    LifeFits(L, sb, d, x);
    LR.RecoverAfter(L, CrashDisk(L, d, Groups(x.cs), x.k), x.cuts)
  }

  // Disk e has the files as they were right after the operations of the groups that life x made durable.
  ghost predicate Kept(L: LR.Layout, sb: Super, d: LR.Disk, x: Life, e: LR.Disk)
    requires Started(L, sb, d)
  {
    LR.ValidGroups(L, |d|, Groups(x.cs)) && exists m: nat :: KeptBy(L, sb, d, x, e, m)
  }

  lemma LifeStep(L: LR.Layout, sb: Super, d: LR.Disk, x: Life)
    requires Started(L, sb, d) && LifeOk(L, sb, d, x)
    ensures Started(L, sb, NextDisk(L, sb, d, x)) && Kept(L, sb, d, x, NextDisk(L, sb, d, x))
  {
    hide Started, LifeOk, KeptBy;
    var m := LifeKeeps(L, sb, d, x);
  }

  // ds[j] is the disk that life j starts from.
  ghost predicate Lives(L: LR.Layout, sb: Super, ds: seq<LR.Disk>, xs: seq<Life>) {
    |ds| == |xs| + 1 && forall j :: 0 <= j < |xs| ==> LifeAt(L, sb, ds, xs, j)
  }

  ghost predicate LifeAt(L: LR.Layout, sb: Super, ds: seq<LR.Disk>, xs: seq<Life>, j: nat)
    requires |ds| == |xs| + 1 && j < |xs|
  {
    Started(L, sb, ds[j]) ==> LifeOk(L, sb, ds[j], xs[j]) && ds[j + 1] == NextDisk(L, sb, ds[j], xs[j])
  }

  // Boot j found the files in order, and life j was kept.
  ghost predicate KeptAt(L: LR.Layout, sb: Super, ds: seq<LR.Disk>, xs: seq<Life>, j: nat)
    requires |ds| == |xs| + 1 && j < |xs|
  {
    Started(L, sb, ds[j]) && Kept(L, sb, ds[j], xs[j], ds[j + 1])
  }

  lemma {:induction false} LifeStarts(L: LR.Layout, sb: Super, ds: seq<LR.Disk>, xs: seq<Life>, j: nat)
    requires Lives(L, sb, ds, xs) && Started(L, sb, ds[0]) && j <= |xs|
    ensures Started(L, sb, ds[j]) && (j < |xs| ==> KeptAt(L, sb, ds, xs, j) && Started(L, sb, ds[j + 1]))
  {
    hide Started, LifeOk, Kept, NextDisk;
    if j > 0 {
      LifeStarts(L, sb, ds, xs, j - 1);
    }
    if j < |xs| {
      assert LifeAt(L, sb, ds, xs, j);
      hide Lives;
      LifeStep(L, sb, ds[j], xs[j]);
    }
  }

  // Operations, commits and any number of power failures, also inside recovery, with the operations going
  // on from the disk that recovery leaves: every boot finds the files in order, each as it was right after
  // the operations of the groups that the life before had made durable.
  lemma FilesSurvive(L: LR.Layout, sb: Super, ds: seq<LR.Disk>, xs: seq<Life>)
    requires Lives(L, sb, ds, xs) && Started(L, sb, ds[0])
    ensures Started(L, sb, ds[|xs|]) && forall j :: 0 <= j < |xs| ==> KeptAt(L, sb, ds, xs, j)
  {
    hide Started, KeptAt, LifeAt;
    LifeStarts(L, sb, ds, xs, |xs|);
    forall j | 0 <= j < |xs| ensures KeptAt(L, sb, ds, xs, j) {
      LifeStarts(L, sb, ds, xs, j);
    }
  }

  // One more life can always follow.
  lemma LivesOn(L: LR.Layout, sb: Super, ds: seq<LR.Disk>, xs: seq<Life>, x: Life)
    requires Lives(L, sb, ds, xs) && Started(L, sb, ds[0])
    ensures Started(L, sb, ds[|xs|])
    ensures LifeOk(L, sb, ds[|xs|], x) ==> Lives(L, sb, ds + [NextDisk(L, sb, ds[|xs|], x)], xs + [x])
  {
    hide Started, LifeOk, NextDisk, KeptAt;
    LifeStarts(L, sb, ds, xs, |xs|);
    if LifeOk(L, sb, ds[|xs|], x) {
      var es, ys := ds + [NextDisk(L, sb, ds[|xs|], x)], xs + [x];
      forall j | 0 <= j < |ys| ensures LifeAt(L, sb, es, ys, j) {
        if j < |xs| {
          assert LifeAt(L, sb, ds, xs, j);
          assert es[j] == ds[j] && es[j + 1] == ds[j + 1] && ys[j] == xs[j];
        }
      }
    }
  }
}
