/** The log under the file system: whatever cuts a commit or its recovery short, the disk that a completed recovery
  * leaves holds a good file system, with a whole number of operations done and every file as those operations left it.
  *
  * The file system of Fs works on blocks of bytes and the log of LogRecovery on blocks of words; AsWords is the view of
  * the first as the second.
  */
module FsCrash {
  import opened Param
  import opened FsFormat
  import opened FsModel
  import Fs
  import L = LogRecovery

  // ----- blocks of bytes as blocks of words

  function AsWords(b: Block): L.Block {
    L.RawBlock(seq(NINDIRECT, i requires 0 <= i < NINDIRECT => WordAt(b, i)))
  }

  /** Bytes a to d, lowest first, are determined by the word they make. */
  lemma SameBytesOfWord(a: Byte, b: Byte, c: Byte, d: Byte, a': Byte, b': Byte, c': Byte, d': Byte)
    requires a + 256 * b + 65536 * c + 16777216 * d == a' + 256 * b' + 65536 * c' + 16777216 * d'
    ensures a == a' && b == b' && c == c' && d == d'
  {
  }

  lemma WordsDetermine(b: Block, b': Block, i: nat)
    requires i < NINDIRECT && WordAt(b, i) == WordAt(b', i)
    ensures b.bytes[4 * i] == b'.bytes[4 * i] && b.bytes[4 * i + 1] == b'.bytes[4 * i + 1]
    ensures b.bytes[4 * i + 2] == b'.bytes[4 * i + 2] && b.bytes[4 * i + 3] == b'.bytes[4 * i + 3]
  {
    var x, y: seq<Byte> := b.bytes, b'.bytes;
    SameBytesOfWord(x[4 * i], x[4 * i + 1], x[4 * i + 2], x[4 * i + 3], y[4 * i], y[4 * i + 1], y[4 * i + 2], y[4 * i + 3]);
  }

  lemma AsWordsIsInjective(b: Block, b': Block)
    requires AsWords(b) == AsWords(b')
    ensures b == b'
  {
    forall j: nat | j < BSIZE
      ensures b.bytes[j] == b'.bytes[j]
    {
      var i := j / 4;
      assert AsWords(b).w[i] == WordAt(b, i) && AsWords(b').w[i] == WordAt(b', i);
      WordsDetermine(b, b', i);
      assert j == 4 * i + j % 4;
    }
  }

  // ----- operations and transactions

  /** The file system between two operations. */
  datatype Moment = Moment(blk: seq<Block>, owner: map<nat, Slot>)

  /** A file-system operation: the blocks it passed to log_write, and the file system it left. */
  datatype Operation = Operation(logged: set<nat>, after: Moment)

  /** An operation leaves a good file system and has logged every block it changed. */
  ghost predicate OperationOk(sb: Super, before: Moment, op: Operation) {
    && FsOk(sb, op.after.blk, op.after.owner) && |op.after.blk| == |before.blk|
    && forall a :: 0 <= a < |before.blk| && op.after.blk[a] != before.blk[a] ==> a in op.logged
  }

  /** What Fs proves of its operations is that they are such operations. */
  lemma OperationOfFs(fs: Fs.FileSystem, before: Moment)
    requires fs.Recorded() && FsOk(fs.sb, fs.blk, fs.owner) && before.blk == fs.start
    ensures OperationOk(fs.sb, before, Operation(fs.logged, Moment(fs.blk, fs.owner)))
  {
  }

  /** The file system after the operations. */
  function After(before: Moment, ops: seq<Operation>): Moment {
    if ops == [] then before else ops[|ops| - 1].after
  }

  ghost predicate OperationsOk(sb: Super, before: Moment, ops: seq<Operation>) {
    forall i :: 0 <= i < |ops| ==> OperationOk(sb, After(before, ops[..i]), ops[i])
  }

  /** The transaction that commits a group of operations: every block that one of them logged, with its last contents. */
  ghost predicate Commits(before: Moment, ops: seq<Operation>, t: L.Tx) {
    && (forall i, a :: 0 <= i < |ops| && a in ops[i].logged ==> a in t.blocks)
    && (forall a :: a in t.data ==> 0 <= a < |After(before, ops).blk| && t.data[a] == AsWords(After(before, ops).blk[a]))
  }

  /** A run of transactions: groups[i] is what transaction i commits. */
  function AfterGroups(before: Moment, groups: seq<seq<Operation>>): Moment {
    if groups == [] then before
    else After(AfterGroups(before, groups[..|groups| - 1]), groups[|groups| - 1])
  }

  ghost predicate RunOk(sb: Super, before: Moment, groups: seq<seq<Operation>>, txs: seq<L.Tx>) {
    && |groups| == |txs|
    && forall i :: 0 <= i < |txs| ==>
      var m := AfterGroups(before, groups[..i]);
      OperationsOk(sb, m, groups[i]) && Commits(m, groups[i], txs[i])
  }

  // ----- what the log keeps of a run

  lemma {:induction false} GroupKeeps(sb: Super, before: Moment, ops: seq<Operation>, a: int)
    requires OperationsOk(sb, before, ops) && 0 <= a < |before.blk|
    requires forall i :: 0 <= i < |ops| ==> a !in ops[i].logged
    ensures a < |After(before, ops).blk| && After(before, ops).blk[a] == before.blk[a]
    decreases |ops|
  {
    if ops != [] {
      var init := ops[..|ops| - 1];
      assert forall i :: 0 <= i < |init| ==> init[..i] == ops[..i];
      GroupKeeps(sb, before, init, a);
      assert OperationOk(sb, After(before, init), ops[|ops| - 1]);
    }
  }

  lemma {:induction false} GroupGood(sb: Super, before: Moment, ops: seq<Operation>)
    requires OperationsOk(sb, before, ops) && FsOk(sb, before.blk, before.owner)
    ensures FsOk(sb, After(before, ops).blk, After(before, ops).owner)
    ensures |After(before, ops).blk| == |before.blk|
  {
    if ops != [] {
      assert OperationOk(sb, After(before, ops[..|ops| - 1]), ops[|ops| - 1]);
    }
  }

  /** A home block after the transactions is that of the file system after the operations. */
  lemma {:induction false} AppliedIsAfter(sb: Super, g: L.Geometry, d: seq<L.Block>, before: Moment, groups: seq<seq<Operation>>,
                                          txs: seq<L.Tx>, a: int)
    requires L.Fits(g, d) && L.TxsOk(g, d, txs) && RunOk(sb, before, groups, txs)
    requires FsOk(sb, before.blk, before.owner) && |d| == |before.blk|
    requires 0 <= a < |d| && d[a] == AsWords(before.blk[a])
    ensures var m := AfterGroups(before, groups);
      FsOk(sb, m.blk, m.owner) && |m.blk| == |d| && L.Applied(d, txs, a) == AsWords(m.blk[a])
    decreases |txs|
  {
    hide FsOk, AsWords, L.TxOk, L.Pinned, L.Fits, OperationsOk, Commits, After;
    if txs != [] {
      var n := |txs| - 1;
      FirstGroups(sb, before, groups, txs, n);
      assert L.TxsOk(g, d, txs[..n]);
      AppliedIsAfter(sb, g, d, before, groups[..n], txs[..n], a);
      OneGroup(sb, g, d, AfterGroups(before, groups[..n]), groups[n], txs[n], a);
    }
  }

  lemma FirstGroups(sb: Super, before: Moment, groups: seq<seq<Operation>>, txs: seq<L.Tx>, n: nat)
    requires RunOk(sb, before, groups, txs) && n <= |txs|
    ensures n <= |groups| == |txs| && RunOk(sb, before, groups[..n], txs[..n])
  {
    hide OperationsOk, Commits, AfterGroups;
    assert forall i :: 0 <= i < n ==> groups[..n][..i] == groups[..i];
  }

  lemma OneGroup(sb: Super, g: L.Geometry, d: seq<L.Block>, m: Moment, ops: seq<Operation>, t: L.Tx, a: int)
    requires FsOk(sb, m.blk, m.owner) && OperationsOk(sb, m, ops) && Commits(m, ops, t)
    requires L.TxOk(g, d, t.blocks) && L.Pinned(t.data, t.blocks) && 0 <= a < |m.blk|
    ensures var m' := After(m, ops);
      && FsOk(sb, m'.blk, m'.owner) && |m'.blk| == |m.blk|
      && AsWords(m'.blk[a]) == if a in t.data then t.data[a] else AsWords(m.blk[a])
  {
    hide FsOk, AsWords, L.TxOk;
    GroupGood(sb, m, ops);
    if a !in t.data {
      assert a !in t.blocks;
      GroupKeeps(sb, m, ops, a);
    }
  }

  // ----- the file system does not depend on the log area

  ghost predicate SameFrom(lo: nat, blk: seq<Block>, blk': seq<Block>) {
    |blk| == |blk'| && forall a :: lo <= a < |blk| ==> blk'[a] == blk[a]
  }

  lemma GoodFile(sb: Super, blk: seq<Block>, owner: map<nat, Slot>, i: nat)
    requires FsOk(sb, blk, owner) && i < sb.ninodes
    ensures Disk(sb, blk) && BitmapOk(sb, blk, owner) && OwnOk(blk, owner, i, DinodeOn(sb, blk, i).addrs)
    ensures sb.inodestart <= IBlock(sb, i) < sb.bmapstart < NMeta(sb)
  {
    hide BitmapOk, OwnOk, DinodeOn;
    FsDisk(sb, blk, owner);
  }

  lemma SlotsFrom(sb: Super, blk: seq<Block>, owner: map<nat, Slot>, blk': seq<Block>, i: nat)
    requires FsOk(sb, blk, owner) && i < sb.ninodes && SameFrom(sb.inodestart, blk, blk')
    ensures DinodeOn(sb, blk', i) == DinodeOn(sb, blk, i) && OwnOk(blk, owner, i, DinodeOn(sb, blk, i).addrs)
    ensures forall k :: 0 <= k < NSLOTS ==>
      SlotAddr(blk', DinodeOn(sb, blk, i).addrs, k) == SlotAddr(blk, DinodeOn(sb, blk, i).addrs, k)
  {
    hide FsOk, BitmapOk, OwnOk, DinodeIn, WordAt;
    GoodFile(sb, blk, owner, i);
    var addrs := DinodeOn(sb, blk, i).addrs;
    assert SlotAddr(blk, addrs, NDIRECT) == addrs[NDIRECT];
    if addrs[NDIRECT] != 0 {
      SlotOwned(sb, blk, owner, i, addrs, NDIRECT);
    }
  }

  lemma ByteFrom(sb: Super, blk: seq<Block>, owner: map<nat, Slot>, blk': seq<Block>, i: nat, addrs: seq<Word>, x: nat)
    requires BitmapOk(sb, blk, owner) && OwnOk(blk, owner, i, addrs) && |addrs| == NDIRECT + 1
    requires SameFrom(sb.inodestart, blk, blk') && x < MAXFILE * BSIZE
    requires SlotAddr(blk', addrs, SlotOf(x / BSIZE)) == SlotAddr(blk, addrs, SlotOf(x / BSIZE))
    ensures ByteAt(blk', addrs, x) == ByteAt(blk, addrs, x)
  {
    hide SlotAddr, OwnOk, BitmapOk;
    var k := SlotOf(x / BSIZE);
    if SlotAddr(blk, addrs, k) != 0 {
      SlotOwned(sb, blk, owner, i, addrs, k);
      BitmapDisk(sb, blk, owner);
    }
  }

  lemma BitmapDisk(sb: Super, blk: seq<Block>, owner: map<nat, Slot>)
    requires BitmapOk(sb, blk, owner)
    ensures Disk(sb, blk) && sb.inodestart <= NMeta(sb)
  {
  }

  lemma FilesFrom(sb: Super, blk: seq<Block>, owner: map<nat, Slot>, blk': seq<Block>, i: nat)
    requires FsOk(sb, blk, owner) && i < sb.ninodes && SameFrom(sb.inodestart, blk, blk')
    ensures var addrs := DinodeOn(sb, blk, i).addrs;
      DinodeOn(sb, blk', i).addrs == addrs && OwnOk(blk', owner, i, addrs) && SameBytes(blk, addrs, blk', addrs)
  {
    FsDisk(sb, blk, owner);
    hide FsOk, SlotAddr, DinodeOn, OwnOk, BitmapOk, ByteAt, SlotOf, SameFrom;
    var addrs := DinodeOn(sb, blk, i).addrs;
    SlotsFrom(sb, blk, owner, blk', i);
    SameSlotsOwnOk(blk, blk', owner, i, addrs);
    forall x: nat | x < MAXFILE * BSIZE
      ensures ByteAt(blk', addrs, x) == ByteAt(blk, addrs, x)
    {
      ByteFrom(sb, blk, owner, blk', i, addrs, x);
    }
  }

  lemma BitFrom(sb: Super, blk: seq<Block>, owner: map<nat, Slot>, blk': seq<Block>, b: nat)
    requires BitmapOk(sb, blk, owner) && b < sb.size && SameFrom(sb.inodestart, blk, blk')
    ensures BitRight(sb, blk', owner, b)
  {
    assert BitRight(sb, blk, owner, b);
    hide Bit;
    BitmapBlock(sb, b);
  }

  lemma GoodFrom(sb: Super, blk: seq<Block>, owner: map<nat, Slot>, blk': seq<Block>)
    requires FsOk(sb, blk, owner) && SameFrom(sb.inodestart, blk, blk')
    ensures FsOk(sb, blk', owner)
  {
    hide BitRight, OwnOk, DinodeOn;
    forall b: nat | b < sb.size
      ensures BitRight(sb, blk', owner, b)
    {
      BitFrom(sb, blk, owner, blk', b);
    }
    forall i: nat | i < sb.ninodes
      ensures OwnOk(blk', owner, i, DinodeOn(sb, blk', i).addrs)
    {
      FilesFrom(sb, blk, owner, blk', i);
    }
  }

  // ----- the main result

  /** Home blocks of the log's disk are those of the file system. */
  ghost predicate Stored(g: L.Geometry, d: seq<L.Block>, blk: seq<Block>) {
    |d| == |blk| && forall a :: 0 <= a < |d| && !L.InLog(g, a) ==> d[a] == AsWords(blk[a])
  }

  /** The disk that a completed recovery leaves, after a crash k writes into the last commit and crashes in recovery. */
  ghost function Survivor(g: L.Geometry, d: seq<L.Block>, txs: seq<L.Tx>, k: nat, ks: seq<nat>): seq<L.Block>
    requires L.Fits(g, d) && L.HeadN(g, d) == 0 && txs != [] && L.TxsOk(g, d, txs) && txs[|txs| - 1].blocks != []
  {
    L.RunSurvivesCrash(g, d, txs, k, ks);
    var t := txs[|txs| - 1];
    L.Recovered(g, L.Crashes(g, L.CommitState(g, L.Committed(g, d, txs[..|txs| - 1]), t.data, t.blocks, k), ks))
  }

  /** The header write is write |blocks| + 1 of the last commit: from it on, all the transactions count. */
  function Kept(txs: seq<L.Tx>, k: nat): (n: nat)
    requires txs != []
    ensures n <= |txs|
  {
    if k > |txs[|txs| - 1].blocks| then |txs| else |txs| - 1
  }

  lemma HomeSurvives(g: L.Geometry, d: seq<L.Block>, txs: seq<L.Tx>, k: nat, ks: seq<nat>)
    requires L.Fits(g, d) && L.HeadN(g, d) == 0 && txs != [] && L.TxsOk(g, d, txs) && txs[|txs| - 1].blocks != []
    ensures AppliedTo(g, d, txs[..Kept(txs, k)], Survivor(g, d, txs, k, ks))
  {
    hide L.Fits, L.HeadN, L.TxsOk, L.Applied, L.Recovered, L.CommitState, L.Crashes, L.Committed, L.InLog, L.HeadOk;
    assert txs[..|txs|] == txs;
    L.RunSurvivesCrash(g, d, txs, k, ks);
  }

  lemma ImageAt(sb: Super, g: L.Geometry, d: seq<L.Block>, before: Moment, groups: seq<seq<Operation>>,
                txs: seq<L.Tx>, r: seq<L.Block>, image: seq<Block>, a: nat)
    requires L.Fits(g, d) && L.TxsOk(g, d, txs) && RunOk(sb, before, groups, txs)
    requires FsOk(sb, before.blk, before.owner) && Stored(g, d, before.blk) && Stored(g, r, image)
    requires |r| == |d| && g.start + g.size <= a < |d| && r[a] == L.Applied(d, txs, a)
    ensures var m := AfterGroups(before, groups);
      FsOk(sb, m.blk, m.owner) && |m.blk| == |d| == |image| && image[a] == m.blk[a]
  {
    hide FsOk, RunOk, L.TxsOk, L.Applied, AfterGroups, L.Fits, Stored, AsWords;
    StoredAt(g, d, before.blk, a);
    StoredAt(g, r, image, a);
    AppliedIsAfter(sb, g, d, before, groups, txs, a);
    AsWordsIsInjective(image[a], AfterGroups(before, groups).blk[a]);
  }

  /** r holds at every home block what the transactions applied to it. */
  ghost predicate AppliedTo(g: L.Geometry, d: seq<L.Block>, txs: seq<L.Tx>, r: seq<L.Block>) {
    |r| == |d| && forall a :: 0 <= a < |d| && !L.InLog(g, a) ==> r[a] == L.Applied(d, txs, a)
  }

  lemma ImageIs(sb: Super, g: L.Geometry, d: seq<L.Block>, before: Moment, groups: seq<seq<Operation>>,
                txs: seq<L.Tx>, r: seq<L.Block>, image: seq<Block>)
    requires L.Fits(g, d) && L.TxsOk(g, d, txs) && RunOk(sb, before, groups, txs) && g.start + g.size <= sb.inodestart
    requires FsOk(sb, before.blk, before.owner) && Stored(g, d, before.blk) && Stored(g, r, image) && AppliedTo(g, d, txs, r)
    ensures var m := AfterGroups(before, groups);
      FsOk(sb, m.blk, m.owner) && SameFrom(sb.inodestart, m.blk, image)
  {
    FsDisk(sb, before.blk, before.owner);
    StoredSize(g, d, before.blk);
    hide FsOk, RunOk, L.TxsOk, L.Applied, AfterGroups, L.Fits, Stored, BitmapOk;
    ImageAt(sb, g, d, before, groups, txs, r, image, sb.inodestart);
    forall a: nat | sb.inodestart <= a < |d|
      ensures image[a] == AfterGroups(before, groups).blk[a]
    {
      ImageAt(sb, g, d, before, groups, txs, r, image, a);
    }
  }

  lemma StoredAt(g: L.Geometry, d: seq<L.Block>, blk: seq<Block>, a: nat)
    requires Stored(g, d, blk) && g.start + g.size <= a < |d|
    ensures |d| == |blk| && d[a] == AsWords(blk[a])
  {
  }

  lemma FirstTxs(g: L.Geometry, d: seq<L.Block>, txs: seq<L.Tx>, n: nat)
    requires L.TxsOk(g, d, txs) && n <= |txs|
    ensures L.TxsOk(g, d, txs[..n])
  {
  }

  /** A crash after any k writes of the last commit of a run of file-system operations, any number of crashes in recovery,
    * and then a completed recovery: the disk holds the file system after the first |txs| - 1 transactions, or after all
    * of them once the header was written.  It is good, and every inode and file is as the operations left it.
    */
  lemma OperationsSurviveCrash(sb: Super, g: L.Geometry, d: seq<L.Block>, before: Moment, groups: seq<seq<Operation>>,
                               txs: seq<L.Tx>, k: nat, ks: seq<nat>, image: seq<Block>)
    requires L.Fits(g, d) && L.HeadN(g, d) == 0 && g.start + g.size <= sb.inodestart
    requires txs != [] && L.TxsOk(g, d, txs) && txs[|txs| - 1].blocks != []
    requires FsOk(sb, before.blk, before.owner) && Stored(g, d, before.blk) && RunOk(sb, before, groups, txs)
    requires Stored(g, Survivor(g, d, txs, k, ks), image)
    ensures |groups| == |txs| && var m := AfterGroups(before, groups[..Kept(txs, k)]);
      && FsOk(sb, m.blk, m.owner) && FsOk(sb, image, m.owner)
      && forall i :: 0 <= i < sb.ninodes ==>
        && DinodeOn(sb, image, i) == DinodeOn(sb, m.blk, i)
        && SameBytes(m.blk, DinodeOn(sb, m.blk, i).addrs, image, DinodeOn(sb, m.blk, i).addrs)
  {
    hide RunOk, L.TxsOk, L.Applied, Survivor, AfterGroups, L.Fits, Stored, SameFrom, FsOk, SameBytes, DinodeOn, Kept, OwnOk,
      AppliedTo;
    var n := Kept(txs, k);
    HomeSurvives(g, d, txs, k, ks);
    FirstGroups(sb, before, groups, txs, n);
    FirstTxs(g, d, txs, n);
    ImageIs(sb, g, d, before, groups[..n], txs[..n], Survivor(g, d, txs, k, ks), image);
    var m := AfterGroups(before, groups[..n]);
    GoodFrom(sb, m.blk, m.owner, image);
    FsDisk(sb, m.blk, m.owner);
    FsDisk(sb, image, m.owner);
    forall i: nat | i < sb.ninodes
      ensures DinodeOn(sb, image, i) == DinodeOn(sb, m.blk, i)
      ensures SameBytes(m.blk, DinodeOn(sb, m.blk, i).addrs, image, DinodeOn(sb, m.blk, i).addrs)
    {
      SlotsFrom(sb, m.blk, m.owner, image, i);
      FilesFrom(sb, m.blk, m.owner, image, i);
    }
  }

  lemma StoredSize(g: L.Geometry, d: seq<L.Block>, blk: seq<Block>)
    requires Stored(g, d, blk)
    ensures |d| == |blk|
  {
  }

  lemma FsDisk(sb: Super, blk: seq<Block>, owner: map<nat, Slot>)
    requires FsOk(sb, blk, owner)
    ensures Disk(sb, blk) && BitmapOk(sb, blk, owner)
  {
  }
}
