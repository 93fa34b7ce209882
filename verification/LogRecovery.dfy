/** The redo log of log.c: commit and crash recovery.
  *
  * A disk is a sequence of blocks and every bwrite is one atomic block write, so a
  * crash leaves the disk in the state between two consecutive writes.  The pure
  * functions below give that state after every number of writes of commit and of
  * recovery; class Log performs the writes and records each state in its disk's trace.
  */
module LogRecovery {
  import opened Param

  /** A block is seen as its NINDIRECT 32-bit words, which is how log.c reads the header. */
  datatype RawBlock = RawBlock(w: seq<int>)
  type Block = b: RawBlock | |b.w| == NINDIRECT witness RawBlock(seq(NINDIRECT, _ => 0))

  /** sb.logstart and sb.nlog. */
  datatype Geometry = Geometry(start: nat, size: nat)

  predicate InLog(g: Geometry, a: int) {
    g.start <= a < g.start + g.size
  }

  predicate Fits(g: Geometry, d: seq<Block>) {
    1 <= g.size && g.start + g.size <= |d|
  }

  /** The logged block numbers: distinct, on the disk, outside the log area, and few enough. */
  predicate TxOk(g: Geometry, d: seq<Block>, bs: seq<int>) {
    && |bs| <= LOGSIZE && |bs| < g.size
    && (forall i :: 0 <= i < |bs| ==> 0 <= bs[i] < |d| && !InLog(g, bs[i]))
    && (forall i, j :: 0 <= i < j < |bs| ==> bs[i] != bs[j])
  }

  function HeadN(g: Geometry, d: seq<Block>): int
    requires Fits(g, d)
  {
    d[g.start].w[0]
  }

  predicate HeadOk(g: Geometry, d: seq<Block>) {
    Fits(g, d) && 0 <= HeadN(g, d) <= LOGSIZE && TxOk(g, d, d[g.start].w[1..1 + HeadN(g, d)])
  }

  function HeadBlocks(g: Geometry, d: seq<Block>): seq<int>
    requires HeadOk(g, d)
  {
    d[g.start].w[1..1 + HeadN(g, d)]
  }

  /** write_head changes the count and the first |bs| entries; the rest of the block stays. */
  function WithHead(b: Block, bs: seq<int>): Block
    requires |bs| <= LOGSIZE
  {
    RawBlock([|bs|] + bs + b.w[1 + |bs|..])
  }

  function HeadWritten(g: Geometry, d: seq<Block>, bs: seq<int>): (r: seq<Block>)
    requires Fits(g, d) && |bs| <= LOGSIZE
    ensures |r| == |d|
  {
    d[g.start := WithHead(d[g.start], bs)]
  }

  /** The disk after the first k iterations of install_trans. */
  function Installed(g: Geometry, d: seq<Block>, bs: seq<int>, k: nat): (r: seq<Block>)
    requires Fits(g, d) && TxOk(g, d, bs) && k <= |bs|
    ensures |r| == |d|
  {
    if k == 0 then d
    else
      var p := Installed(g, d, bs, k - 1);
      p[bs[k - 1] := p[g.start + k]]
  }

  /** The disk after k writes of install_trans followed by the write of an empty header. */
  function ClearState(g: Geometry, d: seq<Block>, bs: seq<int>, k: nat): (r: seq<Block>)
    requires Fits(g, d) && TxOk(g, d, bs)
    ensures |r| == |d|
  {
    if k <= |bs| then Installed(g, d, bs, k) else HeadWritten(g, Installed(g, d, bs, |bs|), [])
  }

  /** The disk after k writes of recover_from_log; k past the last write is full recovery. */
  function RecoveryState(g: Geometry, d: seq<Block>, k: nat): (r: seq<Block>)
    requires HeadOk(g, d)
    ensures |r| == |d|
  {
    ClearState(g, d, HeadBlocks(g, d), k)
  }

  function Recovered(g: Geometry, d: seq<Block>): (r: seq<Block>)
    requires HeadOk(g, d)
    ensures |r| == |d|
  {
    RecoveryState(g, d, HeadN(g, d) + 1)
  }

  /** What bread returns: the pinned buffer, else the disk block. */
  function Logical(d: seq<Block>, pinned: map<int, Block>, a: int): Block
    requires 0 <= a < |d|
  {
    if a in pinned then pinned[a] else d[a]
  }

  predicate Pinned(pinned: map<int, Block>, bs: seq<int>) {
    (forall i :: 0 <= i < |bs| ==> bs[i] in pinned)
    && (forall a :: a in pinned ==> a in bs)
  }

  /** The disk after the first k iterations of write_log. */
  function LogCopied(g: Geometry, d: seq<Block>, pinned: map<int, Block>, bs: seq<int>, k: nat): (r: seq<Block>)
    requires Fits(g, d) && TxOk(g, d, bs) && k <= |bs|
    ensures |r| == |d|
  {
    if k == 0 then d
    else
      var p := LogCopied(g, d, pinned, bs, k - 1);
      p[g.start + k := Logical(p, pinned, bs[k - 1])]
  }

  function Sealed(g: Geometry, d: seq<Block>, pinned: map<int, Block>, bs: seq<int>): (r: seq<Block>)
    requires Fits(g, d) && TxOk(g, d, bs)
    ensures |r| == |d|
  {
    HeadWritten(g, LogCopied(g, d, pinned, bs, |bs|), bs)
  }

  /** The disk after k writes of commit, for a nonempty transaction. */
  function CommitState(g: Geometry, d: seq<Block>, pinned: map<int, Block>, bs: seq<int>, k: nat): (r: seq<Block>)
    requires Fits(g, d) && TxOk(g, d, bs)
    ensures |r| == |d|
  {
    var n := |bs|;
    if k <= n then LogCopied(g, d, pinned, bs, k) else ClearState(g, Sealed(g, d, pinned, bs), bs, k - n - 1)
  }

  /** Successive crashes: each recovery is cut short after the given number of writes. */
  function Crashes(g: Geometry, d: seq<Block>, ks: seq<nat>): (r: seq<Block>)
    requires HeadOk(g, d)
    ensures HeadOk(g, r) && |r| == |d|
    decreases |ks|
  {
    if ks == [] then d
    else
      RecoveryStaysOk(g, d, ks[0]);
      Crashes(g, RecoveryState(g, d, ks[0]), ks[1..])
  }

  // ----- what installing and copying do, block by block

  lemma {:induction false} InstalledDst(g: Geometry, d: seq<Block>, bs: seq<int>, k: nat, i: nat)
    requires Fits(g, d) && TxOk(g, d, bs) && i < k <= |bs|
    ensures Installed(g, d, bs, k)[bs[i]] == d[g.start + i + 1]
  {
    if i == k - 1 {
      assert InLog(g, g.start + k);
      InstalledElse(g, d, bs, k - 1, g.start + k);
    } else {
      InstalledDst(g, d, bs, k - 1, i);
    }
  }

  lemma {:induction false} InstalledElse(g: Geometry, d: seq<Block>, bs: seq<int>, k: nat, a: int)
    requires Fits(g, d) && TxOk(g, d, bs) && k <= |bs| && 0 <= a < |d|
    requires forall i :: 0 <= i < k ==> bs[i] != a
    ensures Installed(g, d, bs, k)[a] == d[a]
  {
    if k > 0 {
      InstalledElse(g, d, bs, k - 1, a);
    }
  }

  lemma {:induction false} LogCopiedAt(g: Geometry, d: seq<Block>, pinned: map<int, Block>, bs: seq<int>, k: nat)
    requires Fits(g, d) && TxOk(g, d, bs) && k <= |bs|
    ensures forall i :: 0 <= i < k ==>
      LogCopied(g, d, pinned, bs, k)[g.start + i + 1] == Logical(d, pinned, bs[i])
    ensures forall a :: 0 <= a < |d| && !(g.start < a <= g.start + k) ==>
      LogCopied(g, d, pinned, bs, k)[a] == d[a]
  {
    if k > 0 {
      LogCopiedAt(g, d, pinned, bs, k - 1);
      assert !InLog(g, bs[k - 1]);
    }
  }

  // ----- recovery is idempotent, whatever cuts it short

  lemma InstallKeepsHead(g: Geometry, d: seq<Block>, bs: seq<int>, k: nat)
    requires Fits(g, d) && TxOk(g, d, bs) && k <= |bs|
    ensures forall a :: InLog(g, a) ==> Installed(g, d, bs, k)[a] == d[a]
  {
    forall a | InLog(g, a)
      ensures Installed(g, d, bs, k)[a] == d[a]
    {
      InstalledElse(g, d, bs, k, a);
    }
  }

  lemma InstallTwice(g: Geometry, d: seq<Block>, bs: seq<int>, k: nat)
    requires Fits(g, d) && TxOk(g, d, bs) && k <= |bs|
    ensures TxOk(g, Installed(g, d, bs, k), bs)
    ensures Installed(g, Installed(g, d, bs, k), bs, |bs|) == Installed(g, d, bs, |bs|)
  {
    var p := Installed(g, d, bs, k);
    InstallKeepsHead(g, d, bs, k);
    forall a | 0 <= a < |d|
      ensures Installed(g, p, bs, |bs|)[a] == Installed(g, d, bs, |bs|)[a]
    {
      if i :| 0 <= i < |bs| && bs[i] == a {
        assert InLog(g, g.start + i + 1);
        InstalledDst(g, p, bs, |bs|, i);
        InstalledDst(g, d, bs, |bs|, i);
      } else {
        InstalledElse(g, p, bs, |bs|, a);
        InstalledElse(g, d, bs, |bs|, a);
        InstalledElse(g, d, bs, k, a);
      }
    }
  }

  lemma EmptyHead(g: Geometry, d: seq<Block>)
    requires Fits(g, d)
    ensures HeadOk(g, HeadWritten(g, d, [])) && HeadN(g, HeadWritten(g, d, [])) == 0
    ensures Recovered(g, HeadWritten(g, d, [])) == HeadWritten(g, d, [])
  {
    var e := HeadWritten(g, d, []);
    assert e[g.start] == WithHead(d[g.start], []);
    assert e[g.start] == WithHead(e[g.start], []);
    assert HeadN(g, e) == 0;
    assert HeadBlocks(g, e) == [];
  }

  lemma RecoveryStaysOk(g: Geometry, d: seq<Block>, k: nat)
    requires HeadOk(g, d)
    ensures HeadOk(g, RecoveryState(g, d, k))
  {
    var bs := HeadBlocks(g, d);
    if k <= HeadN(g, d) {
      InstallKeepsHead(g, d, bs, k);
      assert InLog(g, g.start);
    } else {
      EmptyHead(g, Installed(g, d, bs, |bs|));
    }
  }

  /** Recovering from any point of a recovery gives the disk the first recovery would have given. */
  lemma RecoveryIdempotent(g: Geometry, d: seq<Block>, k: nat)
    requires HeadOk(g, d)
    ensures HeadOk(g, RecoveryState(g, d, k))
    ensures Recovered(g, RecoveryState(g, d, k)) == Recovered(g, d)
  {
    RecoveryStaysOk(g, d, k);
    var bs := HeadBlocks(g, d);
    if k <= HeadN(g, d) {
      var p := RecoveryState(g, d, k);
      InstallKeepsHead(g, d, bs, k);
      assert InLog(g, g.start);
      assert HeadBlocks(g, p) == bs;
      InstallTwice(g, d, bs, k);
    } else {
      EmptyHead(g, Installed(g, d, bs, |bs|));
    }
  }

  lemma {:induction false} CrashesRecover(g: Geometry, d: seq<Block>, ks: seq<nat>)
    requires HeadOk(g, d)
    ensures Recovered(g, Crashes(g, d, ks)) == Recovered(g, d)
    decreases |ks|
  {
    if ks != [] {
      RecoveryIdempotent(g, d, ks[0]);
      CrashesRecover(g, RecoveryState(g, d, ks[0]), ks[1..]);
    }
  }

  // ----- commit is atomic

  /** The home blocks after the transaction: logged blocks new, all others as they were. */
  predicate HomeIs(g: Geometry, r: seq<Block>, d: seq<Block>, pinned: map<int, Block>, bs: seq<int>, done: bool)
  {
    |r| == |d|
    && forall a {:trigger r[a]} :: 0 <= a < |d| && !InLog(g, a) ==>
      r[a] == if done && a in bs then Logical(d, pinned, a) else d[a]
  }

  /** Log block i holds the new contents of the i-th logged block. */
  predicate LogHolds(g: Geometry, d: seq<Block>, pinned: map<int, Block>, bs: seq<int>, s: seq<Block>)
    requires Fits(g, d) && TxOk(g, d, bs) && |s| == |d|
  {
    forall i :: 0 <= i < |bs| ==> s[g.start + i + 1] == Logical(d, pinned, bs[i])
  }

  lemma HeadRead(g: Geometry, d: seq<Block>, bs: seq<int>)
    requires Fits(g, d) && TxOk(g, d, bs)
    ensures HeadOk(g, HeadWritten(g, d, bs)) && HeadBlocks(g, HeadWritten(g, d, bs)) == bs
  {
    assert HeadWritten(g, d, bs)[g.start].w[1..1 + |bs|] == bs;
  }

  /** The sealed disk: header names bs, log block i holds bs[i]'s new contents, home is untouched. */
  lemma SealedAt(g: Geometry, d: seq<Block>, pinned: map<int, Block>, bs: seq<int>)
    requires Fits(g, d) && TxOk(g, d, bs)
    ensures HeadOk(g, Sealed(g, d, pinned, bs)) && HeadBlocks(g, Sealed(g, d, pinned, bs)) == bs
    ensures LogHolds(g, d, pinned, bs, Sealed(g, d, pinned, bs))
    ensures HomeIs(g, Sealed(g, d, pinned, bs), d, pinned, bs, false)
  {
    hide LogCopied, HeadOk, HeadBlocks, Logical;
    var s := LogCopied(g, d, pinned, bs, |bs|);
    LogCopiedAt(g, d, pinned, bs, |bs|);
    assert TxOk(g, s, bs);
    HeadRead(g, s, bs);
  }

  lemma InstalledHomeAt(g: Geometry, d: seq<Block>, pinned: map<int, Block>, bs: seq<int>, s: seq<Block>, a: int)
    requires Fits(g, d) && TxOk(g, d, bs) && |s| == |d| && 0 <= a < |d|
    requires LogHolds(g, d, pinned, bs, s) && s[a] == d[a]
    ensures Installed(g, s, bs, |bs|)[a] == if a in bs then Logical(d, pinned, a) else d[a]
  {
    if a in bs {
      var i :| 0 <= i < |bs| && bs[i] == a;
      InstalledDst(g, s, bs, |bs|, i);
    } else {
      InstalledElse(g, s, bs, |bs|, a);
    }
  }

  lemma InstalledHome(g: Geometry, d: seq<Block>, pinned: map<int, Block>, bs: seq<int>, s: seq<Block>)
    requires Fits(g, d) && TxOk(g, d, bs) && |s| == |d|
    requires LogHolds(g, d, pinned, bs, s) && HomeIs(g, s, d, pinned, bs, false)
    ensures HomeIs(g, Installed(g, s, bs, |bs|), d, pinned, bs, true)
  {
    var r := Installed(g, s, bs, |bs|);
    hide Installed, TxOk, LogHolds;
    forall a {:trigger r[a]} | 0 <= a < |d| && !InLog(g, a)
      ensures r[a] == if a in bs then Logical(d, pinned, a) else d[a]
    {
      InstalledHomeAt(g, d, pinned, bs, s, a);
    }
  }

  lemma SealedHead(g: Geometry, d: seq<Block>, pinned: map<int, Block>, bs: seq<int>)
    requires Fits(g, d) && TxOk(g, d, bs)
    ensures HeadOk(g, Sealed(g, d, pinned, bs)) && HeadBlocks(g, Sealed(g, d, pinned, bs)) == bs
    ensures CommitState(g, d, pinned, bs, |bs| + 1) == Sealed(g, d, pinned, bs)
    ensures HomeIs(g, Installed(g, Sealed(g, d, pinned, bs), bs, |bs|), d, pinned, bs, true)
  {
    hide LogCopied, Sealed, HeadOk, HomeIs, LogHolds;
    SealedAt(g, d, pinned, bs);
    InstalledHome(g, d, pinned, bs, Sealed(g, d, pinned, bs));
  }

  lemma SealedRecovers(g: Geometry, d: seq<Block>, pinned: map<int, Block>, bs: seq<int>, k: nat)
    requires Fits(g, d) && TxOk(g, d, bs) && k > |bs|
    ensures HeadOk(g, CommitState(g, d, pinned, bs, k))
    ensures HomeIs(g, Recovered(g, CommitState(g, d, pinned, bs, k)), d, pinned, bs, true)
  {
    hide Installed, LogCopied;
    var s := Sealed(g, d, pinned, bs);
    SealedHead(g, d, pinned, bs);
    assert CommitState(g, d, pinned, bs, k) == RecoveryState(g, s, k - |bs| - 1);
    RecoveryIdempotent(g, s, k - |bs| - 1);
    assert HomeIs(g, Recovered(g, s), d, pinned, bs, true);
  }

  lemma UnsealedRecovers(g: Geometry, d: seq<Block>, pinned: map<int, Block>, bs: seq<int>, k: nat)
    requires Fits(g, d) && TxOk(g, d, bs) && HeadN(g, d) == 0 && k <= |bs|
    ensures HeadOk(g, CommitState(g, d, pinned, bs, k))
    ensures HomeIs(g, Recovered(g, CommitState(g, d, pinned, bs, k)), d, pinned, bs, false)
  {
    var c := LogCopied(g, d, pinned, bs, k);
    LogCopiedAt(g, d, pinned, bs, k);
    assert c[g.start] == d[g.start];
    assert HeadBlocks(g, c) == [];
  }

  /** Before the header write recovery finds an empty log; from it on it finds the whole transaction. */
  lemma CommitPoint(g: Geometry, d: seq<Block>, pinned: map<int, Block>, bs: seq<int>, k: nat)
    requires Fits(g, d) && TxOk(g, d, bs) && HeadN(g, d) == 0
    ensures HeadOk(g, CommitState(g, d, pinned, bs, k))
    ensures HomeIs(g, Recovered(g, CommitState(g, d, pinned, bs, k)), d, pinned, bs, k > |bs|)
  {
    if k <= |bs| {
      UnsealedRecovers(g, d, pinned, bs, k);
    } else {
      SealedRecovers(g, d, pinned, bs, k);
    }
  }

  /** Crash atomicity.  The machine stops after any k writes of commit and then any number
    * of times during recovery; once a recovery completes, either every block of the
    * transaction holds its new contents or every one holds its old contents, all other home
    * blocks are untouched, and the log is empty again.
    */
  lemma CrashAtomicity(g: Geometry, d: seq<Block>, pinned: map<int, Block>, bs: seq<int>, k: nat, ks: seq<nat>)
    requires Fits(g, d) && TxOk(g, d, bs) && HeadN(g, d) == 0
    ensures HeadOk(g, CommitState(g, d, pinned, bs, k))
    ensures var r := Recovered(g, Crashes(g, CommitState(g, d, pinned, bs, k), ks));
      HomeIs(g, r, d, pinned, bs, k > |bs|) && HeadN(g, r) == 0
  {
    CommitPoint(g, d, pinned, bs, k);
    var c := CommitState(g, d, pinned, bs, k);
    CrashesRecover(g, c, ks);
    EmptyHead(g, Installed(g, c, HeadBlocks(g, c), HeadN(g, c)));
  }

  // ----- a run of transactions

  datatype Tx = Tx(blocks: seq<int>, data: map<int, Block>)

  predicate TxsOk(g: Geometry, d: seq<Block>, txs: seq<Tx>) {
    forall i :: 0 <= i < |txs| ==> TxOk(g, d, txs[i].blocks) && Pinned(txs[i].data, txs[i].blocks)
  }

  /** The disk after complete commits of txs, in order; commit does nothing when lh.n is 0. */
  function Committed(g: Geometry, d: seq<Block>, txs: seq<Tx>): (r: seq<Block>)
    requires Fits(g, d) && TxsOk(g, d, txs)
    ensures |r| == |d|
  {
    if txs == [] then d
    else
      var p := Committed(g, d, txs[..|txs| - 1]);
      var t := txs[|txs| - 1];
      if t.blocks == [] then p else CommitState(g, p, t.data, t.blocks, 2 * |t.blocks| + 2)
  }

  /** The transactions applied to a home block by a program that never crashes. */
  function Applied(d: seq<Block>, txs: seq<Tx>, a: int): Block
    requires 0 <= a < |d|
  {
    if txs == [] then d[a]
    else
      var t := txs[|txs| - 1];
      if a in t.data then t.data[a] else Applied(d, txs[..|txs| - 1], a)
  }

  lemma {:induction false} CommittedApplies(g: Geometry, d: seq<Block>, txs: seq<Tx>)
    requires Fits(g, d) && TxsOk(g, d, txs) && HeadN(g, d) == 0
    ensures HeadN(g, Committed(g, d, txs)) == 0
    ensures forall a :: 0 <= a < |d| && !InLog(g, a) ==> Committed(g, d, txs)[a] == Applied(d, txs, a)
    decreases |txs|
  {
    if txs != [] {
      var init := txs[..|txs| - 1];
      CommittedApplies(g, d, init);
      var t := txs[|txs| - 1];
      var p := Committed(g, d, init);
      if t.blocks != [] {
        SealedHead(g, p, t.data, t.blocks);
        EmptyHead(g, Installed(g, Sealed(g, p, t.data, t.blocks), t.blocks, |t.blocks|));
      }
    }
  }

  /** Over a whole run: a crash after any k writes of the last commit, followed by any number of
    * crashed recoveries and a completed one, leaves every home block as exactly the first
    * |txs|-1 or exactly all |txs| transactions would have left it.
    */
  lemma RunSurvivesCrash(g: Geometry, d: seq<Block>, txs: seq<Tx>, k: nat, ks: seq<nat>)
    requires Fits(g, d) && HeadN(g, d) == 0 && txs != [] && TxsOk(g, d, txs)
    requires txs[|txs| - 1].blocks != []
    ensures var t := txs[|txs| - 1];
      var c := CommitState(g, Committed(g, d, txs[..|txs| - 1]), t.data, t.blocks, k);
      && HeadOk(g, c)
      && var r := Recovered(g, Crashes(g, c, ks));
         forall a :: 0 <= a < |d| && !InLog(g, a) ==>
           r[a] == Applied(d, if k > |t.blocks| then txs else txs[..|txs| - 1], a)
  {
    var init, t := txs[..|txs| - 1], txs[|txs| - 1];
    CommittedApplies(g, d, init);
    CrashAtomicity(g, Committed(g, d, init), t.data, t.blocks, k, ks);
  }

  /** A commit changes no home block as its readers see it: pinned buffers before, the disk after. */
  lemma CommitKeepsView(g: Geometry, d: seq<Block>, pinned: map<int, Block>, bs: seq<int>, a: int)
    requires Fits(g, d) && TxOk(g, d, bs) && Pinned(pinned, bs) && HeadN(g, d) == 0
    requires 0 <= a < |d| && !InLog(g, a)
    ensures Logical(CommitState(g, d, pinned, bs, 2 * |bs| + 2), map[], a) == Logical(d, pinned, a)
  {
    SealedHead(g, d, pinned, bs);
  }

  /** t1 is t0 followed by the first m states of a commit. */
  predicate CommitTrace(g: Geometry, d: seq<Block>, pinned: map<int, Block>, bs: seq<int>,
                        t0: seq<seq<Block>>, t1: seq<seq<Block>>, m: nat)
    requires Fits(g, d) && TxOk(g, d, bs)
  {
    |t1| == |t0| + m && t0 <= t1
    && forall j :: |t0| <= j < |t1| ==> t1[j] == CommitState(g, d, pinned, bs, j - |t0| + 1)
  }

  /** t1 is t0 followed by the first m states of install_trans and the write that clears the log. */
  predicate InstallTrace(g: Geometry, d: seq<Block>, bs: seq<int>, t0: seq<seq<Block>>, t1: seq<seq<Block>>, m: nat)
    requires Fits(g, d) && TxOk(g, d, bs)
  {
    |t1| == |t0| + m && t0 <= t1
    && forall j :: |t0| <= j < |t1| ==> t1[j] == ClearState(g, d, bs, j - |t0| + 1)
  }

  /** t1 is t0 followed by every state of a recovery. */
  predicate RecoveryTrace(g: Geometry, d: seq<Block>, t0: seq<seq<Block>>, t1: seq<seq<Block>>)
    requires HeadOk(g, d)
  {
    |t1| == |t0| + HeadN(g, d) + 1 && t0 <= t1
    && forall j :: |t0| <= j < |t1| ==> t1[j] == RecoveryState(g, d, j - |t0| + 1)
  }

  lemma CommitTraceCleared(g: Geometry, d: seq<Block>, pinned: map<int, Block>, bs: seq<int>,
                           t: seq<seq<Block>>, t1: seq<seq<Block>>, t2: seq<seq<Block>>)
    requires Fits(g, d) && TxOk(g, d, bs)
    requires CommitTrace(g, d, pinned, bs, t, t1, |bs| + 1)
    requires InstallTrace(g, Sealed(g, d, pinned, bs), bs, t1, t2, |bs| + 1)
    ensures CommitTrace(g, d, pinned, bs, t, t2, 2 * |bs| + 2)
  {
    forall j | |t| <= j < |t2|
      ensures t2[j] == CommitState(g, d, pinned, bs, j - |t| + 1)
    {
      if j < |t1| {
        assert t2[j] == t1[j];
      }
    }
  }

  lemma NothingInstalled(g: Geometry, d: seq<Block>, bs: seq<int>, t: seq<seq<Block>>)
    requires Fits(g, d) && TxOk(g, d, bs)
    ensures Installed(g, d, bs, 0) == d && InstallTrace(g, d, bs, t, t, 0)
  {
  }

  lemma NothingCopied(g: Geometry, d: seq<Block>, pinned: map<int, Block>, bs: seq<int>, t: seq<seq<Block>>)
    requires Fits(g, d) && TxOk(g, d, bs)
    ensures LogCopied(g, d, pinned, bs, 0) == d && CommitTrace(g, d, pinned, bs, t, t, 0)
  {
  }

  lemma LogUnpinned(g: Geometry, d: seq<Block>, pinned: map<int, Block>, bs: seq<int>, a: int)
    requires TxOk(g, d, bs) && Pinned(pinned, bs) && InLog(g, a)
    ensures a !in pinned
  {
  }

  lemma CommitTraceMore(g: Geometry, d: seq<Block>, pinned: map<int, Block>, bs: seq<int>,
                        t0: seq<seq<Block>>, t1: seq<seq<Block>>, m: nat)
    requires Fits(g, d) && TxOk(g, d, bs) && CommitTrace(g, d, pinned, bs, t0, t1, m)
    ensures CommitTrace(g, d, pinned, bs, t0, t1 + [CommitState(g, d, pinned, bs, m + 1)], m + 1)
  {
    hide CommitState;
  }

  lemma InstallTraceMore(g: Geometry, d: seq<Block>, bs: seq<int>, t0: seq<seq<Block>>, t1: seq<seq<Block>>, m: nat)
    requires Fits(g, d) && TxOk(g, d, bs) && InstallTrace(g, d, bs, t0, t1, m)
    ensures InstallTrace(g, d, bs, t0, t1 + [ClearState(g, d, bs, m + 1)], m + 1)
  {
    hide ClearState;
  }

  lemma LogCopiedMore(g: Geometry, d: seq<Block>, pinned: map<int, Block>, bs: seq<int>, k: nat)
    requires Fits(g, d) && TxOk(g, d, bs) && k < |bs|
    ensures g.start + k + 1 < |d| && 0 <= bs[k] < |d| && InLog(g, g.start + k + 1)
    ensures var p := LogCopied(g, d, pinned, bs, k);
      var q := p[g.start + k + 1 := Logical(p, pinned, bs[k])];
      q == LogCopied(g, d, pinned, bs, k + 1) == CommitState(g, d, pinned, bs, k + 1)
  {
  }

  lemma InstalledMore(g: Geometry, d: seq<Block>, bs: seq<int>, k: nat)
    requires Fits(g, d) && TxOk(g, d, bs) && k < |bs|
    ensures g.start + k + 1 < |d| && 0 <= bs[k] < |d| && InLog(g, g.start + k + 1)
    ensures var p := Installed(g, d, bs, k);
      p[bs[k] := p[g.start + k + 1]] == Installed(g, d, bs, k + 1) == ClearState(g, d, bs, k + 1)
  {
  }

  /** The pinned buffers once bwrite has cleaned the first k logged ones. */
  function Unpinned(pinned: map<int, Block>, bs: seq<int>, k: nat): map<int, Block>
    requires k <= |bs|
  {
    if k == 0 then pinned else Unpinned(pinned, bs, k - 1) - {bs[k - 1]}
  }

  lemma {:induction false} NothingPinned(pinned: map<int, Block>, bs: seq<int>, k: nat)
    requires k <= |bs| && forall a :: a in pinned ==> a in bs
    ensures forall a :: a in Unpinned(pinned, bs, k) ==> a in bs[k..]
    ensures k == |bs| ==> Unpinned(pinned, bs, k) == map[]
  {
    if k > 0 {
      NothingPinned(pinned, bs, k - 1);
      assert bs[k - 1..] == [bs[k - 1]] + bs[k..];
    }
  }

  // ----- the guards of begin_op, log_write and end_op

  /** Whether begin_op must wait: a commit is running, or this operation might exhaust the log. */
  predicate MustWait(committing: bool, n: int, outstanding: int) {
    committing || n + (outstanding + 1) * MAXOPBLOCKS > LOGSIZE
  }

  /** log_write's first panic test. */
  predicate TooBig(n: int, size: int) {
    n >= LOGSIZE || n >= size - 1
  }

  /** log absorption: a block already in the transaction is not added again. */
  function Absorb<T(==)>(lh: seq<T>, b: T): seq<T> {
    if b in lh then lh else lh + [b]
  }

  // ----- the imperative code

  /** The persistent disk, with the history of states a crash could have left. */
  class Disk {
    var blk: seq<Block>
    ghost var trace: seq<seq<Block>>

    constructor (image: seq<Block>)
      ensures blk == image && trace == []
    {
      blk, trace := image, [];
    }

    method Write(a: nat, b: Block)
      requires a < |blk|
      modifies this
      ensures blk == old(blk)[a := b] && trace == old(trace) + [blk]
    {
      blk := blk[a := b];
      trace := trace + [blk];
    }
  }

  class Log {
    const g: Geometry
    const disk: Disk
    var n: nat                    // lh.n
    var block: array<int>         // lh.block
    var outstanding: int
    var committing: bool
    var pinned: map<int, Block>   // buffers log_write marked B_DIRTY

    ghost predicate Valid()
      reads this, disk, block
    {
      block.Length == LOGSIZE && n <= LOGSIZE && Fits(g, disk.blk)
    }

    ghost function Blocks(): seq<int>
      reads this, block
      requires n <= block.Length
    {
      block[..n]
    }

    /** A transaction is open: its blocks are pinned and the on-disk log is empty. */
    ghost predicate Open()
      reads this, disk, block
    {
      Valid() && TxOk(g, disk.blk, Blocks()) && Pinned(pinned, Blocks()) && HeadN(g, disk.blk) == 0
    }

    constructor (g: Geometry, disk: Disk)
      requires Fits(g, disk.blk)
      ensures Valid() && this.g == g && this.disk == disk && n == 0 && pinned == map[] && fresh(block)
    {
      this.g, this.disk, n, pinned := g, disk, 0, map[];
      outstanding, committing := 0, false;
      block := new int[LOGSIZE];
    }

    /** One pass of begin_op's loop, under log.lock: admit the operation or wait. */
    method BeginOp() returns (admitted: bool)
      modifies this`outstanding
      ensures admitted <==> !committing && n + (old(outstanding) + 1) * 10 <= 30
      ensures outstanding == old(outstanding) + if admitted then 1 else 0
    {
      if committing {
        admitted := false;
      } else if n + (outstanding + 1) * MAXOPBLOCKS > LOGSIZE {
        admitted := false;
      } else {
        outstanding := outstanding + 1;
        admitted := true;
      }
    }

    /** end_op up to the point where it commits; the panic is a precondition. */
    method EndOp() returns (doCommit: bool)
      requires !committing
      modifies this`outstanding, this`committing
      ensures outstanding == old(outstanding) - 1
      ensures doCommit == committing && (doCommit <==> outstanding == 0)
    {
      doCommit := false;
      outstanding := outstanding - 1;
      if outstanding == 0 {
        doCommit := true;
        committing := true;
      }
    }

    /** Record a modified block and pin its buffer.  The panics are preconditions; LogProtocol says
      * when they can happen.
      */
    method LogWrite(b: int, data: Block)
      requires Open() && 0 <= b < |disk.blk| && !InLog(g, b)
      requires !TooBig(n, g.size) && outstanding >= 1
      modifies this`n, this`pinned, block
      ensures Open() && Blocks() == Absorb(old(Blocks()), b) && pinned == old(pinned)[b := data]
    {
      ghost var bs := Blocks();
      var i := 0;
      while i < n && block[i] != b
        invariant i <= n && b !in block[..i]
      {
        assert block[..i + 1] == block[..i] + [block[i]];
        i := i + 1;
      }
      if i < n {
        assert bs[i] == b;
      }
      block[i] := b;
      if i == n {
        n := n + 1;
        assert Blocks() == bs + [b];
      } else {
        assert Blocks() == bs;
      }
      pinned := pinned[b := data];
    }

    method Bread(a: nat) returns (b: Block)
      requires a < |disk.blk|
      ensures b == Logical(disk.blk, pinned, a)
    {
      b := if a in pinned then pinned[a] else disk.blk[a];
    }

    /** bwrite: the block goes to disk and its buffer is clean again. */
    method Bwrite(a: nat, b: Block)
      requires a < |disk.blk|
      modifies disk, this`pinned
      ensures disk.blk == old(disk.blk)[a := b] && disk.trace == old(disk.trace) + [disk.blk]
      ensures pinned == old(pinned) - {a}
    {
      disk.Write(a, b);
      pinned := pinned - {a};
    }

    method InstallTrans()
      requires Valid() && TxOk(g, disk.blk, Blocks())
      requires forall a :: InLog(g, a) ==> a !in pinned
      modifies disk, this`pinned
      ensures Valid() && disk.blk == Installed(g, old(disk.blk), Blocks(), n)
      ensures InstallTrace(g, old(disk.blk), Blocks(), old(disk.trace), disk.trace, n)
      ensures pinned == Unpinned(old(pinned), Blocks(), n)
    {
      hide TxOk, Installed, InstallTrace, ClearState;
      ghost var d0, t0, p0, bs := disk.blk, disk.trace, pinned, Blocks();
      NothingInstalled(g, d0, bs, t0);
      var tail := 0;
      while tail < n
        invariant tail <= n && Valid() && disk.blk == Installed(g, d0, bs, tail)
        invariant InstallTrace(g, d0, bs, t0, disk.trace, tail)
        invariant pinned == Unpinned(p0, bs, tail)
        invariant forall a :: InLog(g, a) ==> a !in pinned
      {
        assert block[tail] == bs[tail];
        InstalledMore(g, d0, bs, tail);
        InstallTraceMore(g, d0, bs, t0, disk.trace, tail);
        assert Unpinned(p0, bs, tail + 1) == Unpinned(p0, bs, tail) - {bs[tail]};
        var lbuf := Bread(g.start + tail + 1);
        Bwrite(block[tail], lbuf);
        tail := tail + 1;
      }
    }

    method WriteHead()
      requires Valid() && forall a :: InLog(g, a) ==> a !in pinned
      modifies disk, this`pinned
      ensures Valid() && disk.blk == HeadWritten(g, old(disk.blk), Blocks())
      ensures disk.trace == old(disk.trace) + [disk.blk] && pinned == old(pinned)
    {
      assert InLog(g, g.start);
      var buf := Bread(g.start);
      var hb := buf.w[0 := n];
      var i := 0;
      while i < n
        invariant i <= n && |hb| == NINDIRECT
        invariant hb == [n] + block[..i] + buf.w[1 + i..]
      {
        hb := hb[1 + i := block[i]];
        assert block[..i + 1] == block[..i] + [block[i]];
        i := i + 1;
      }
      Bwrite(g.start, RawBlock(hb));
      assert pinned == old(pinned);
    }

    /** Copy the on-disk header into the in-memory one. */
    method ReadHead()
      requires Valid() && HeadOk(g, disk.blk) && forall a :: InLog(g, a) ==> a !in pinned
      modifies this`n, block
      ensures Valid() && n == HeadN(g, disk.blk) && Blocks() == HeadBlocks(g, disk.blk)
    {
      assert InLog(g, g.start);
      var lh := Bread(g.start);
      n := lh.w[0];
      var i := 0;
      while i < n
        invariant i <= n == lh.w[0] && block[..i] == lh.w[1..1 + i]
      {
        block[i] := lh.w[1 + i];
        assert block[..i + 1] == block[..i] + [lh.w[1 + i]];
        i := i + 1;
      }
    }

    /** The last three lines of both recover_from_log and commit: install, then clear the log. */
    method InstallAndClear()
      requires Valid() && TxOk(g, disk.blk, Blocks())
      requires forall a :: a in pinned ==> a in Blocks()
      modifies disk, this`n, this`pinned
      ensures Valid() && n == 0 && pinned == map[]
      ensures var d, bs := old(disk.blk), old(Blocks());
        && disk.blk == ClearState(g, d, bs, |bs| + 1)
        && InstallTrace(g, d, bs, old(disk.trace), disk.trace, |bs| + 1)
    {
      ghost var bs := Blocks();
      InstallTrans();
      NothingPinned(old(pinned), bs, |bs|);
      n := 0;
      assert Blocks() == [];
      WriteHead();
    }

    /** Recovery writes exactly the states RecoveryState lists, and ends recovered. */
    method RecoverFromLog()
      requires Valid() && HeadOk(g, disk.blk) && pinned == map[]
      modifies disk, this`n, this`pinned, block
      ensures Open() && n == 0 && disk.blk == Recovered(g, old(disk.blk)) && pinned == map[]
      ensures RecoveryTrace(g, old(disk.blk), old(disk.trace), disk.trace)
    {
      ghost var d := disk.blk;
      ReadHead();
      InstallAndClear();
      EmptyHead(g, Installed(g, d, HeadBlocks(g, d), HeadN(g, d)));
    }

    method WriteLog()
      requires Open()
      modifies disk, this`pinned
      ensures Valid() && disk.blk == LogCopied(g, old(disk.blk), old(pinned), Blocks(), n)
      ensures CommitTrace(g, old(disk.blk), old(pinned), Blocks(), old(disk.trace), disk.trace, n)
      ensures pinned == old(pinned)
    {
      hide TxOk, LogCopied, CommitTrace, CommitState;
      ghost var d0, t0, bs := disk.blk, disk.trace, Blocks();
      NothingCopied(g, d0, pinned, bs, t0);
      var tail := 0;
      while tail < n
        invariant tail <= n && Valid() && disk.blk == LogCopied(g, d0, old(pinned), bs, tail)
        invariant CommitTrace(g, d0, old(pinned), bs, t0, disk.trace, tail)
        invariant pinned == old(pinned)
      {
        assert block[tail] == bs[tail];
        LogCopiedMore(g, d0, pinned, bs, tail);
        CommitTraceMore(g, d0, pinned, bs, t0, disk.trace, tail);
        var from := Bread(block[tail]);
        LogUnpinned(g, d0, pinned, bs, g.start + tail + 1);
        Bwrite(g.start + tail + 1, from);
        assert pinned == old(pinned);
        tail := tail + 1;
      }
    }

    /** Commit passes through exactly the states CommitState lists and leaves nothing pinned. */
    method Commit()
      requires Open()
      modifies disk, this`n, this`pinned
      ensures Open() && n == 0 && pinned == map[]
      ensures old(Blocks()) == [] ==> disk.blk == old(disk.blk) && disk.trace == old(disk.trace)
      ensures var bs := old(Blocks()); bs != [] ==>
        && disk.blk == CommitState(g, old(disk.blk), old(pinned), bs, 2 * |bs| + 2)
        && CommitTrace(g, old(disk.blk), old(pinned), bs, old(disk.trace), disk.trace, 2 * |bs| + 2)
    {
      hide Installed, LogCopied;
      ghost var d, p, t, bs := disk.blk, pinned, disk.trace, Blocks();
      if n > 0 {
        WriteLog();
        WriteHead();
        SealedHead(g, d, p, bs);
        assert disk.blk == Sealed(g, d, p, bs);
        assert CommitTrace(g, d, p, bs, t, disk.trace, |bs| + 1);
        ghost var t1 := disk.trace;
        InstallAndClear();
        CommitTraceCleared(g, d, p, bs, t, t1, disk.trace);
        EmptyHead(g, Installed(g, Sealed(g, d, p, bs), bs, |bs|));
      } else {
        NothingPinned(p, bs, 0);
      }
    }
  }
}
