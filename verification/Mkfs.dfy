/** mkfs.c, the second writer of the on-disk format.
  *
  * mkfs takes blocks and inodes from two counters and writes the bitmap only at the end.  The proofs
  * look at the image through Final: the image as it will be once balloc(freeblock) has written the
  * bitmap.  On that image each freeblock++ is one kernel balloc, so the kernel's lemmas apply.
  */
module Mkfs {
  import opened Param
  import opened FsFormat
  import opened FsModel
  import Fs

  const FSSIZE: nat := 1000
  const NINODES: nat := 200
  const NBITMAP: nat := FSSIZE / BPB + 1
  const NINODEBLOCKS: nat := NINODES / IPB + 1
  const NLOG: nat := LOGSIZE
  const NMETA: nat := 2 + NLOG + NINODEBLOCKS + NBITMAP

  /** The superblock mkfs writes. */
  const SB: Super := Super(FSSIZE, FSSIZE - NMETA, NINODES, 2 + NLOG, 2 + NLOG + NINODEBLOCKS)

  lemma SbGood()
    ensures GoodSb(SB) && NMeta(SB) == NMETA == 59 && SB.bmapstart == 58 && SB.inodestart == 32
  {
  }

  /** The bitmap block balloc(used) writes: the first used bits. */
  function BitmapOf(used: nat): Block
    requires used <= BPB
  {
    if used == 0 then Zero() else SetBit(BitmapOf(used - 1), used - 1)
  }

  lemma {:induction false} BitmapBits(used: nat, i: nat)
    requires used <= BPB && i < BPB
    ensures Bit(BitmapOf(used), i) <==> i < used
  {
    if used == 0 {
      ZeroBit(i);
    } else {
      BitmapBits(used - 1, i);
      BitOfSet(BitmapOf(used - 1), used - 1, i);
    }
  }

  lemma ZeroBit(i: nat)
    requires i < BPB
    ensures !Bit(Zero(), i)
  {
    NoBits(i % 8);
  }

  lemma {:induction false} NoBits(k: nat)
    ensures !BitOf(0, k)
  {
    if k > 0 {
      NoBits(k - 1);
    }
  }

  /** The image as it will be when the bitmap is written. */
  function Final(blk: seq<Block>, freeblock: nat): (r: seq<Block>)
    requires |blk| == FSSIZE && freeblock <= FSSIZE
    ensures |r| == FSSIZE
  {
    var b: Block := BitmapOf(freeblock);
    blk[SB.bmapstart := b]
  }

  lemma FinalUsed(blk: seq<Block>, freeblock: nat, b: nat)
    requires |blk| == FSSIZE && freeblock <= FSSIZE && b < FSSIZE
    ensures Disk(SB, Final(blk, freeblock))
    ensures Used(SB, Final(blk, freeblock), b) <==> b < freeblock
  {
    SbGood();
    assert BBlock(SB, b) == SB.bmapstart && b % BPB == b;
    BitmapBits(freeblock, b);
  }

  /** Blocks mkfs has not handed out are zero. */
  ghost predicate Blank(blk: seq<Block>, freeblock: nat) {
    |blk| == FSSIZE && forall x :: freeblock <= x < FSSIZE ==> blk[x] == Zero()
  }

  /** freeblock++ entered in slot k is, on the final image, the kernel's balloc. */
  lemma FreeblockIsBalloc(blk: seq<Block>, freeblock: nat, addrs: seq<Word>, k: nat)
    requires Blank(blk, freeblock) && NMETA <= freeblock < FSSIZE && |addrs| == NDIRECT + 1 && k < NSLOTS
    requires k > NDIRECT ==> NMETA <= addrs[NDIRECT] < freeblock
    ensures Disk(SB, Final(blk, freeblock))
    ensures k <= NDIRECT ==> Final(blk, freeblock + 1) == Grown(SB, Final(blk, freeblock), addrs, k, freeblock)
    ensures k > NDIRECT ==>
      var i := addrs[NDIRECT];
      var entered: Block := PutWord(blk[i], k - NDIRECT - 1, freeblock);
      Final(blk[i := entered], freeblock + 1) == Grown(SB, Final(blk, freeblock), addrs, k, freeblock)
  {
    SbGood();
    var f := Final(blk, freeblock);
    assert BBlock(SB, freeblock) == SB.bmapstart && freeblock % BPB == freeblock;
    assert f[SB.bmapstart] == BitmapOf(freeblock);
    assert Balloced(SB, f, freeblock) == Final(blk, freeblock + 1);
    if k > NDIRECT {
      var i := addrs[NDIRECT];
      var entered: Block := PutWord(blk[i], k - NDIRECT - 1, freeblock);
      assert Final(blk, freeblock + 1)[i] == blk[i];
      assert Final(blk, freeblock + 1)[i := entered] == Final(blk[i := entered], freeblock + 1);
    }
  }

  /** Byte x of a file with contents c: zeros after the end. */
  function Padded(c: seq<Byte>, x: nat): Byte {
    if x < |c| then c[x] else 0
  }

  /** The file with inode d holds exactly c, in exactly the blocks c needs, with zeros after the end. */
  ghost predicate FileIs(blk: seq<Block>, d: Dinode, c: seq<Byte>) {
    && DinodeOk(d) && d.size == |c| && Tight(blk, d.addrs, d.size)
    && forall x :: 0 <= x < MAXFILE * BSIZE ==> ByteAt(blk, d.addrs, x) == Padded(c, x)
  }

  /** Blocks still to be allocated to write file blocks [lo, hi). */
  function Need(blk: seq<Block>, addrs: seq<Word>, lo: nat, hi: nat): nat
    requires |addrs| == NDIRECT + 1 && lo <= hi <= MAXFILE
  {
    Missing(blk, addrs, lo, hi) + if lo < hi && hi > NDIRECT && addrs[NDIRECT] == 0 then 1 else 0
  }

  function NeedAt(blk: seq<Block>, addrs: seq<Word>, bn: nat): nat
    requires |addrs| == NDIRECT + 1 && bn < MAXFILE
  {
    (if FileBlock(blk, addrs, bn) == 0 then 1 else 0) + (if bn >= NDIRECT && addrs[NDIRECT] == 0 then 1 else 0)
  }

  lemma {:induction false} MissingFirst(blk: seq<Block>, addrs: seq<Word>, lo: nat, hi: nat)
    requires |addrs| == NDIRECT + 1 && lo < hi <= MAXFILE
    ensures Missing(blk, addrs, lo, hi)
      == (if FileBlock(blk, addrs, lo) == 0 then 1 else 0) + Missing(blk, addrs, lo + 1, hi)
    decreases hi - lo
  {
    if lo + 1 < hi {
      MissingFirst(blk, addrs, lo, hi - 1);
    }
  }

  lemma {:induction false} MissingSame(blk: seq<Block>, addrs: seq<Word>, blk': seq<Block>, addrs': seq<Word>, lo: nat, hi: nat)
    requires |addrs| == |addrs'| == NDIRECT + 1 && lo <= hi <= MAXFILE
    requires forall bn :: lo <= bn < hi ==> FileBlock(blk', addrs', bn) == FileBlock(blk, addrs, bn)
    ensures Missing(blk', addrs', lo, hi) == Missing(blk, addrs, lo, hi)
    decreases hi - lo
  {
    if lo < hi {
      MissingSame(blk, addrs, blk', addrs', lo, hi - 1);
    }
  }

  /** Writing file block lo uses up what it needs; the rest of the need is what remains. */
  lemma NeedStep(blk: seq<Block>, addrs: seq<Word>, blk': seq<Block>, addrs': seq<Word>, lo: nat, hi: nat)
    requires |addrs| == |addrs'| == NDIRECT + 1 && lo < hi <= MAXFILE
    requires SlotsAfterBmap(blk, addrs, blk', addrs', lo) && (lo >= NDIRECT ==> addrs'[NDIRECT] != 0)
    ensures NeedAt(blk, addrs, lo) + Need(blk', addrs', lo + 1, hi) <= Need(blk, addrs, lo, hi)
  {
    MissingFirst(blk, addrs, lo, hi);
    forall bn | lo + 1 <= bn < hi
      ensures FileBlock(blk', addrs', bn) == FileBlock(blk, addrs, bn)
    {
      assert SlotOf(bn) != SlotOf(lo) && SlotOf(bn) != NDIRECT;
    }
    MissingSame(blk, addrs, blk', addrs', lo + 1, hi);
  }

  // ----- inodes

  const NO_INODE: Dinode := Dinode(0, 0, 0, 0, 0, NO_BLOCKS)

  lemma ZeroInode(n: nat)
    requires n < IPB
    ensures DinodeIn(Zero(), n) == NO_INODE
  {
    var ws := WordsAt(Zero(), DWORDS * n, DWORDS);
    forall i | 0 <= i < DWORDS
      ensures ws[i] == 0
    {
      ZeroWord(DWORDS * n + i);
    }
    assert ws[3..] == NO_BLOCKS;
  }

  /** winode on the image is iupdate on the final image: no inode is in the bitmap block. */
  lemma WinodeIsIupdate(blk: seq<Block>, freeblock: nat, inum: nat, d: Dinode)
    requires |blk| == FSSIZE && freeblock <= FSSIZE && inum < NINODES && DinodeOk(d)
    ensures Disk(SB, Final(blk, freeblock)) && 32 <= IBlock(SB, inum) < 58
    ensures DinodeOn(SB, Final(blk, freeblock), inum) == DinodeIn(blk[IBlock(SB, inum)], inum % IPB)
    ensures var b := IBlock(SB, inum);
      var put: Block := PutDinode(blk[b], inum % IPB, d);
      Final(blk[b := put], freeblock) == Iupdated(SB, Final(blk, freeblock), inum, d)
  {
    SbGood();
    hide PutDinode, DinodeIn, BitmapOf;
    var b := IBlock(SB, inum);
    var put: Block := PutDinode(blk[b], inum % IPB, d);
    assert Final(blk, freeblock)[b] == blk[b];
    assert Final(blk[b := put], freeblock) == Iupdated(SB, Final(blk, freeblock), inum, d);
  }

  lemma FileIsSlots(blk: seq<Block>, blk': seq<Block>, d: Dinode, c: seq<Byte>)
    requires FileIs(blk, d, c) && SameBytes(blk, d.addrs, blk', d.addrs)
    requires forall k :: 0 <= k < NSLOTS ==> SlotAddr(blk', d.addrs, k) == SlotAddr(blk, d.addrs, k)
    ensures FileIs(blk', d, c)
  {
    forall x: nat | x < MAXFILE * BSIZE
      ensures ByteAt(blk', d.addrs, x) == Padded(c, x)
    {
      assert ByteAt(blk', d.addrs, x) == ByteAt(blk, d.addrs, x);
    }
    forall bn: nat | bn < MAXFILE
      ensures FileBlock(blk', d.addrs, bn) == FileBlock(blk, d.addrs, bn)
    {
      assert SlotOf(bn) < NSLOTS;
    }
  }

  /** An operation on inode inum that is then written back leaves file i as it was. */
  lemma OtherFileIs(blk: seq<Block>, owner: map<nat, Slot>, blk': seq<Block>, owner': map<nat, Slot>, inum: nat, d: Dinode,
                    i: nat, c: seq<Byte>)
    requires FsOk(SB, blk, owner) && inum < NINODES && DinodeOk(d) && i < NINODES && i != inum
    requires OthersSame(SB, blk, owner, blk', owner', inum) && BitmapOk(SB, blk', owner')
    requires FileIs(blk, DinodeOn(SB, blk, i), c)
    ensures var r := Iupdated(SB, blk', inum, d);
      DinodeOn(SB, r, i) == DinodeOn(SB, blk, i) && FileIs(r, DinodeOn(SB, r, i), c)
  {
    var e, r := DinodeOn(SB, blk, i), Iupdated(SB, blk', inum, d);
    assert OwnOk(blk, owner, i, e.addrs) && BitmapOk(SB, blk, owner);
    OtherAfterWriteBack(SB, blk, owner, blk', owner', inum, d, i);
    hide FsOk, BitmapOk, OwnOk, OthersSame, DataSame, Iupdated, FileIs, SameBytes, DinodeOn;
    OthersKeep(SB, blk, owner, blk', owner', inum, i, e.addrs);
    IupdatedElsewhere(SB, blk', inum, d);
    forall k: nat | k < NSLOTS
      ensures SlotAddr(r, e.addrs, k) == SlotAddr(blk, e.addrs, k)
    {
      OthersKeepSlot(SB, blk, owner, blk', owner', inum, i, e.addrs, k);
      DataSameSlot(SB, blk', r, owner', i, e.addrs, k);
    }
    FileIsSlots(blk, r, e, c);
  }

  /** Appending at the end of a file, then writing the inode back, makes the file the concatenation. */
  lemma AppendedFileIs(blk0: seq<Block>, d0: Dinode, c: seq<Byte>, data: seq<Byte>, owner0: map<nat, Slot>,
                       blk: seq<Block>, owner: map<nat, Slot>, inum: nat, d: Dinode,
                       logged: set<nat>, bms: set<nat>, dats: set<nat>)
    requires FileIs(blk0, d0, c) && |c| + |data| <= MAXFILE * BSIZE && inum < NINODES
    requires DinodeOk(d) && d.size == |c| + |data|
    requires Writing(SB, blk0, d0.addrs, owner0, |c|, data, Touched(|c|, |data|), blk, owner, inum, d.addrs, logged, bms, dats)
    ensures FileIs(Iupdated(SB, blk, inum, d), d, c + data)
  {
    assert BitmapOk(SB, blk, owner) && OwnOk(blk, owner, inum, d.addrs);
    TightAfterAppend(blk0, d0.addrs, |c|, |data|, blk, d.addrs, {}, logged, bms, dats);
    assert FileIs(blk, d, c + data) by {
      forall x: nat | x < MAXFILE * BSIZE
        ensures ByteAt(blk, d.addrs, x) == Padded(c + data, x)
      {
        assert ByteAt(blk, d.addrs, x) == Overlaid(blk0, d0.addrs, |c|, data, x);
      }
    }
    hide BitmapOk, OwnOk, Writing, DataSame, SameBytes, FileIs, Tight, Iupdated;
    var r := Iupdated(SB, blk, inum, d);
    IupdatedElsewhere(SB, blk, inum, d);
    IupdateKeepsSlots(SB, blk, owner, inum, d, inum, d.addrs);
    forall k: nat | k < NSLOTS
      ensures SlotAddr(r, d.addrs, k) == SlotAddr(blk, d.addrs, k)
    {
      DataSameSlot(SB, blk, r, owner, inum, d.addrs, k);
    }
    FileIsSlots(blk, r, d, c + data);
  }

  lemma NeedAfterPatch(blk: seq<Block>, owner: map<nat, Slot>, inum: nat, addrs: seq<Word>, bn: nat, b: Block, lo: nat, hi: nat)
    requires BitmapOk(SB, blk, owner) && OwnOk(blk, owner, inum, addrs) && bn < MAXFILE && lo <= hi <= MAXFILE
    requires FileBlock(blk, addrs, bn) != 0
    ensures FileBlock(blk, addrs, bn) < SB.size
    ensures Need(blk[FileBlock(blk, addrs, bn) := b], addrs, lo, hi) == Need(blk, addrs, lo, hi)
  {
    BlockInRange(SB, blk, owner, inum, addrs, bn);
    var blk' := blk[FileBlock(blk, addrs, bn) := b];
    forall c: nat | lo <= c < hi
      ensures FileBlock(blk', addrs, c) == FileBlock(blk, addrs, c)
    {
      PatchKeepsSlot(SB, blk, owner, inum, addrs, bn, b, SlotOf(c));
    }
    MissingSame(blk, addrs, blk', addrs, lo, hi);
  }

  /** One pass of iappend's loop on the final image: the block lookup, then the copy into block x. */
  lemma AppendStep(blk0: seq<Block>, addrs0: seq<Word>, owner0: map<nat, Slot>, off0: nat, data: seq<Byte>, p: nat, m: nat,
                   fbn: nat, at: nat, done: nat, blk1: seq<Block>, owner1: map<nat, Slot>, inum: nat,
                   addrs1: seq<Word>, dats: set<nat>, blk2: seq<Block>, owner2: map<nat, Slot>, addrs2: seq<Word>, x: nat)
    requires p + m <= |data| && off0 + p == fbn * BSIZE + at && at + m <= BSIZE && at < BSIZE
    requires fbn == BlockOf(off0) + done < MAXFILE
    requires Writing(SB, blk0, addrs0, owner0, off0, data[..p], done, blk1, owner1, inum, addrs1, dats, {}, dats)
    requires BitmapOk(SB, blk2, owner2) && OwnOk(blk2, owner2, inum, addrs2)
    requires |addrs1| == NDIRECT + 1 && SameBytes(blk1, addrs1, blk2, addrs2)
    requires OthersSame(SB, blk1, owner1, blk2, owner2, inum)
    requires SlotsAfterBmap(blk1, addrs1, blk2, addrs2, fbn) && x == FileBlock(blk2, addrs2, fbn) != 0
    ensures x < |blk2|
    ensures var b: Block := Splice(blk2[x], at, data[p..p + m]);
      Writing(SB, blk0, addrs0, owner0, off0, data[..p + m], done + 1, blk2[x := b], owner2, inum, addrs2,
              dats + {x}, {}, dats + {x})
  {
    hide Writing, BitmapOk, OwnOk, SameBytes, OthersSame, SlotsAfterBmap, FileBlock, Splice;
    var none: set<nat> := {};
    var dats' := dats + {x};
    assert none + none == none && dats' + {x} == dats';
    WritingAfterBmap(SB, blk0, addrs0, owner0, off0, data[..p], done, blk1, owner1, inum, addrs1, dats, none, dats,
                     blk2, owner2, addrs2, dats', none, 0, x);
    WritingAfterCopy(SB, blk0, addrs0, owner0, off0, data, p, m, fbn, at, done + 1, blk2, owner2, inum,
                     addrs2, dats', none, dats', x);
  }

  /** The disk space it used is what it needed. */
  lemma NeedAfterStep(blk1: seq<Block>, addrs1: seq<Word>, blk2: seq<Block>, owner2: map<nat, Slot>, inum: nat,
                      addrs2: seq<Word>, fbn: nat, hi: nat, x: nat, b: Block)
    requires |addrs1| == |addrs2| == NDIRECT + 1 && fbn < hi <= MAXFILE
    requires BitmapOk(SB, blk2, owner2) && OwnOk(blk2, owner2, inum, addrs2) && x == FileBlock(blk2, addrs2, fbn) != 0
    requires SlotsAfterBmap(blk1, addrs1, blk2, addrs2, fbn) && (fbn >= NDIRECT ==> addrs2[NDIRECT] != 0)
    ensures x < |blk2|
    ensures NeedAt(blk1, addrs1, fbn) + Need(blk2[x := b], addrs2, fbn + 1, hi) <= Need(blk1, addrs1, fbn, hi)
  {
    hide BitmapOk, OwnOk, SlotsAfterBmap, FileBlock, Need, NeedAt;
    BlockInRange(SB, blk2, owner2, inum, addrs2, fbn);
    NeedStep(blk1, addrs1, blk2, addrs2, fbn, hi);
    NeedAfterPatch(blk2, owner2, inum, addrs2, fbn, b, fbn + 1, hi);
  }

  /** What an append needs from the disk: the blocks of the file that are not there yet. */
  function NeedToAppend(blk: seq<Block>, addrs: seq<Word>, size: nat, n: nat): nat
    requires |addrs| == NDIRECT + 1 && size + n <= MAXFILE * BSIZE
  {
    Need(blk, addrs, size / BSIZE, size / BSIZE + Touched(size, n))
  }

  /** File i of the image holds contents[i]; inodes from freeinode on are unused. */
  ghost predicate Files(blk: seq<Block>, contents: seq<seq<Byte>>, freeinode: nat) {
    && Disk(SB, blk) && |contents| == NINODES
    && (forall i :: 0 <= i < NINODES ==> FileIs(blk, DinodeOn(SB, blk, i), contents[i]))
    && (forall i :: freeinode <= i < NINODES ==> DinodeOn(SB, blk, i) == NO_INODE)
  }

  /** What of an inode an append leaves alone: its type, its device numbers and its links. */
  function HeadOf(d: Dinode): Dinode {
    d.(size := 0, addrs := NO_BLOCKS)
  }

  /** Inode i has the head made[i]. */
  ghost predicate Headed(blk: seq<Block>, made: seq<Dinode>) {
    Disk(SB, blk) && |made| == NINODES && forall i :: 0 <= i < NINODES ==> HeadOf(DinodeOn(SB, blk, i)) == made[i]
  }

  lemma HeadedAgain(blk0: seq<Block>, made0: seq<Dinode>, blk: seq<Block>, inum: nat, d: Dinode)
    requires Headed(blk0, made0) && Disk(SB, blk) && inum < NINODES && DinodeOn(SB, blk, inum) == d
    requires forall i :: 0 <= i < NINODES && i != inum ==> DinodeOn(SB, blk, i) == DinodeOn(SB, blk0, i)
    ensures Headed(blk, made0[inum := HeadOf(d)])
  {
    hide DinodeOn, HeadOf;
  }

  /** After an operation on inode inum that is written back, every file holds what it should. */
  lemma FilesAgain(blk0: seq<Block>, owner0: map<nat, Slot>, contents0: seq<seq<Byte>>, freeinode0: nat,
                   blk1: seq<Block>, owner1: map<nat, Slot>, inum: nat, d: Dinode, c: seq<Byte>, freeinode: nat)
    requires FsOk(SB, blk0, owner0) && Files(blk0, contents0, freeinode0) && DinodeOk(d)
    requires inum < freeinode <= NINODES && freeinode0 <= freeinode
    requires OthersSame(SB, blk0, owner0, blk1, owner1, inum) && BitmapOk(SB, blk1, owner1)
    requires FileIs(Iupdated(SB, blk1, inum, d), d, c)
    ensures var r := Iupdated(SB, blk1, inum, d);
      && Files(r, contents0[inum := c], freeinode) && DinodeOn(SB, r, inum) == d
      && forall i :: 0 <= i < NINODES && i != inum ==> DinodeOn(SB, r, i) == DinodeOn(SB, blk0, i)
  {
    assert Disk(SB, blk1);
    hide FsOk, BitmapOk, OthersSame, FileIs, Iupdated, DinodeOn;
    var r, contents := Iupdated(SB, blk1, inum, d), contents0[inum := c];
    IupdatedDinode(SB, blk1, inum, d, inum);
    forall i: nat | i < NINODES
      ensures FileIs(r, DinodeOn(SB, r, i), contents[i])
      ensures i != inum ==> DinodeOn(SB, r, i) == DinodeOn(SB, blk0, i)
    {
      if i != inum {
        OtherFileIs(blk0, owner0, blk1, owner1, inum, d, i, contents0[i]);
      }
    }
  }

  /** The image under construction and mkfs's two counters. */
  class Image {
    var blk: seq<Block>
    var freeinode: nat
    var freeblock: nat
    ghost var owner: map<nat, Slot>
    ghost var contents: seq<seq<Byte>>    // what has been appended to each inode
    ghost var made: seq<Dinode>           // each inode as ialloc made it

    /** The image as the kernel will see it. */
    ghost function Img(): (r: seq<Block>)
      requires |blk| == FSSIZE && freeblock <= FSSIZE
      reads this
      ensures |r| == FSSIZE
    {
      Final(blk, freeblock)
    }

    ghost predicate Counters()
      reads this
    {
      |blk| == FSSIZE && NMETA <= freeblock <= FSSIZE && 1 <= freeinode <= NINODES && Blank(blk, freeblock)
    }

    ghost predicate Valid()
      reads this
    {
      Counters() && FsOk(SB, Img(), owner) && Files(Img(), contents, freeinode) && Headed(Img(), made)
    }

    /** The image is on its way to hold plan, for which there is room. */
    ghost predicate Building(plan: seq<seq<Byte>>)
      reads this
    {
      && Valid() && OnPlan(contents, plan) && NMETA + BlocksForAll(plan) <= FSSIZE
      && (forall i :: 0 <= i < |plan| ==> |plan[i]| <= MAXFILE * BSIZE)
      && freeblock <= NMETA + BlocksForAll(contents)
    }

    /** Inside iappend on an inode with blocks addrs. */
    ghost predicate Holding(inum: nat, addrs: seq<Word>)
      reads this
    {
      Counters() && BitmapOk(SB, Img(), owner) && OwnOk(Img(), owner, inum, addrs)
    }

    /** "slot k = freeblock++": on the final image, the kernel's balloc into that slot. */
    method FillSlot(ghost inum: nat, addrs: seq<Word>, k: nat) returns (addrs': seq<Word>)
      requires Holding(inum, addrs) && |addrs| == NDIRECT + 1 && k < NSLOTS && SlotAddr(Img(), addrs, k) == 0
      requires k > NDIRECT ==> addrs[NDIRECT] != 0
      requires freeblock < FSSIZE
      modifies this`blk, this`freeblock, this`owner
      ensures freeblock == old(freeblock) + 1 && |addrs'| == NDIRECT + 1 && Holding(inum, addrs')
      ensures SlotAddr(Img(), addrs', k) == old(freeblock) != 0
      ensures SlotsSameBut(old(Img()), addrs, Img(), addrs', k) && SameBytes(old(Img()), addrs, Img(), addrs')
      ensures OthersSame(SB, old(Img()), old(owner), Img(), owner, inum)
    {
      hide SlotAddr, CanGrow, BitmapOk, OwnOk, SameBytes, OthersSame, SlotsSameBut, Final, FsOk, Grown, GrownAddrs;
      ghost var f, a, owner0 := Img(), freeblock, owner;
      ReadyToFill(inum, addrs, k);
      GrowKeepsOwners(SB, f, owner0, inum, addrs, k, a);
      GrowKeepsBytes(SB, f, owner0, inum, addrs, k, a);
      GrowLeavesOthers(SB, f, owner0, inum, addrs, k, a);
      GrownSlots(SB, f, owner0, inum, addrs, k, a);
      if k <= NDIRECT {
        addrs' := addrs[k := freeblock];
        freeblock := freeblock + 1;
      } else {
        addrs' := addrs;
        var i := addrs[NDIRECT];
        var entered: Block := PutWord(blk[i], k - NDIRECT - 1, freeblock);
        freeblock := freeblock + 1;
        blk := blk[i := entered];
      }
      owner := owner[a := Slot(inum, k)];
    }

    lemma ReadyToFill(inum: nat, addrs: seq<Word>, k: nat)
      requires Holding(inum, addrs) && |addrs| == NDIRECT + 1 && k < NSLOTS && SlotAddr(Img(), addrs, k) == 0
      requires (k > NDIRECT ==> addrs[NDIRECT] != 0) && freeblock < FSSIZE
      ensures CanGrow(SB, Img(), owner, inum, addrs, k, freeblock)
      ensures Blank(blk, freeblock + 1)
      ensures k <= NDIRECT ==>
        && Final(blk, freeblock + 1) == Grown(SB, Img(), addrs, k, freeblock)
        && addrs[k := freeblock] == GrownAddrs(addrs, k, freeblock)
      ensures k > NDIRECT ==>
        var i := addrs[NDIRECT];
        i < freeblock && var entered: Block := PutWord(blk[i], k - NDIRECT - 1, freeblock);
        && Final(blk[i := entered], freeblock + 1) == Grown(SB, Img(), addrs, k, freeblock)
        && addrs == GrownAddrs(addrs, k, freeblock) && Blank(blk[i := entered], freeblock + 1)
    {
      SbGood();
      FinalUsed(blk, freeblock, freeblock);
      if k > NDIRECT {
        IndirectBelow(inum, addrs);
      }
      FreeblockIsBalloc(blk, freeblock, addrs, k);
    }

    /** Blocks of a file have been handed out and are not in the bitmap. */
    lemma IndirectBelow(inum: nat, addrs: seq<Word>)
      requires Holding(inum, addrs) && |addrs| == NDIRECT + 1 && addrs[NDIRECT] != 0
      ensures NMETA <= addrs[NDIRECT] < freeblock && Img()[addrs[NDIRECT]] == blk[addrs[NDIRECT]]
    {
      SbGood();
      assert SlotAddr(Img(), addrs, NDIRECT) == addrs[NDIRECT];
      SlotOwned(SB, Img(), owner, inum, addrs, NDIRECT);
      FinalUsed(blk, freeblock, addrs[NDIRECT]);
    }

    /** iappend's block lookup: the block for file block fbn, taken from freeblock if it is not there. */
    method MapBlock(ghost inum: nat, addrs: seq<Word>, fbn: nat) returns (addrs': seq<Word>, x: nat)
      requires Holding(inum, addrs) && |addrs| == NDIRECT + 1 && fbn < MAXFILE
      requires freeblock + NeedAt(Img(), addrs, fbn) <= FSSIZE
      modifies this`blk, this`freeblock, this`owner
      ensures |addrs'| == NDIRECT + 1 && Holding(inum, addrs') && x == FileBlock(Img(), addrs', fbn) != 0
      ensures freeblock == old(freeblock) + NeedAt(old(Img()), addrs, fbn)
      ensures SameBytes(old(Img()), addrs, Img(), addrs') && SlotsAfterBmap(old(Img()), addrs, Img(), addrs', fbn)
      ensures OthersSame(SB, old(Img()), old(owner), Img(), owner, inum)
      ensures fbn >= NDIRECT ==> addrs'[NDIRECT] != 0
    {
      hide BitmapOk, OwnOk, SameBytes, OthersSame, SlotsAfterBmap, Final, Missing, Blank, FsOk;
      ghost var blk0, owner0 := Img(), owner;
      addrs' := addrs;
      NothingChanged(SB, Img(), owner, inum, addrs, fbn);
      if fbn < NDIRECT {
        if addrs[fbn] == 0 {
          addrs' := FillSlot(inum, addrs, fbn);
          SlotsAfterOne(blk0, addrs, Img(), addrs', fbn);
        }
        x := addrs'[fbn];
        return;
      }
      addrs', x := MapIndirect(inum, addrs, fbn);
    }

    /** The same for a file block past the direct ones. */
    method MapIndirect(ghost inum: nat, addrs: seq<Word>, fbn: nat) returns (addrs': seq<Word>, x: nat)
      requires Holding(inum, addrs) && |addrs| == NDIRECT + 1 && NDIRECT <= fbn < MAXFILE
      requires freeblock + NeedAt(Img(), addrs, fbn) <= FSSIZE
      modifies this`blk, this`freeblock, this`owner
      ensures |addrs'| == NDIRECT + 1 && Holding(inum, addrs') && x == FileBlock(Img(), addrs', fbn) != 0
      ensures freeblock == old(freeblock) + NeedAt(old(Img()), addrs, fbn) && addrs'[NDIRECT] != 0
      ensures SameBytes(old(Img()), addrs, Img(), addrs') && SlotsAfterBmap(old(Img()), addrs, Img(), addrs', fbn)
      ensures OthersSame(SB, old(Img()), old(owner), Img(), owner, inum)
    {
      hide BitmapOk, OwnOk, SameBytes, OthersSame, SlotsAfterBmap, Final, Missing, Blank, FsOk;
      ghost var blk0, owner0 := Img(), owner;
      addrs' := addrs;
      NothingChanged(SB, Img(), owner, inum, addrs, fbn);
      assert SlotAddr(Img(), addrs, NDIRECT) == addrs[NDIRECT];
      if addrs[NDIRECT] == 0 {
        assert NeedAt(Img(), addrs, fbn) == 2;
        addrs' := FillSlot(inum, addrs, NDIRECT);
        ghost var blk1, addrs1, owner1 := Img(), addrs', owner;
        IndirectBelow(inum, addrs');
        assert WordAt(blk[addrs'[NDIRECT]], fbn - NDIRECT) == SlotAddr(blk1, addrs1, SlotOf(fbn)) == 0;
        addrs' := FillSlot(inum, addrs', SlotOf(fbn));
        SlotsAfterTwo(blk0, addrs, blk1, addrs1, Img(), addrs', fbn);
        SameBytesTrans(blk0, addrs, blk1, addrs1, Img(), addrs');
        OthersTrans(SB, blk0, owner0, blk1, owner1, Img(), owner, inum);
      } else {
        IndirectBelow(inum, addrs);
        if WordAt(blk[addrs[NDIRECT]], fbn - NDIRECT) == 0 {
          addrs' := FillSlot(inum, addrs, SlotOf(fbn));
          SlotsAfterOne(blk0, addrs, Img(), addrs', fbn);
        }
      }
      assert addrs'[NDIRECT] != 0;
      IndirectBelow(inum, addrs');
      x := WordAt(blk[addrs'[NDIRECT]], fbn - NDIRECT);
    }

    /** Part-way through iappend (see FsModel.Writing): prefix has been appended, in done file blocks. */
    ghost predicate Appending(inum: nat, addrs: seq<Word>, blk0: seq<Block>, addrs0: seq<Word>, owner0: map<nat, Slot>,
                              off0: nat, prefix: seq<Byte>, done: nat, dats: set<nat>)
      reads this
    {
      && Counters()
      && Writing(SB, blk0, addrs0, owner0, off0, prefix, done, Img(), owner, inum, addrs, dats, {}, dats)
    }

    /** rsect, bcopy, wsect on a block of the file. */
    method CopyIn(ghost inum: nat, ghost addrs: seq<Word>, x: nat, at: nat, piece: seq<Byte>, ghost bn: nat)
      requires Holding(inum, addrs) && |addrs| == NDIRECT + 1 && bn < MAXFILE && x == FileBlock(Img(), addrs, bn) != 0
      requires at + |piece| <= BSIZE
      modifies this`blk
      ensures x < FSSIZE && Counters()
      ensures var b: Block := Splice(old(Img())[x], at, piece); Img() == old(Img())[x := b]
    {
      SbGood();
      SlotOwned(SB, Img(), owner, inum, addrs, SlotOf(bn));
      FinalUsed(blk, freeblock, x);
      var b: Block := Splice(blk[x], at, piece);
      blk := blk[x := b];
    }

    /** Writing the rest of the file blocks takes freeblock no further than room. */
    ghost predicate Room(addrs: seq<Word>, size: nat, n: nat, done: nat, room: nat)
      reads this
    {
      && |blk| == FSSIZE && freeblock <= FSSIZE && |addrs| == NDIRECT + 1
      && done <= Touched(size, n) && BlockOf(size) + Touched(size, n) <= MAXFILE
      && freeblock + Need(Img(), addrs, BlockOf(size) + done, BlockOf(size) + Touched(size, n)) <= room
    }

    /** One pass of iappend's loop, at byte at of file block fbn. */
    method AppendBlock(ghost inum: nat, addrs: seq<Word>, fbn: nat, at: nat, piece: seq<Byte>,
                       ghost data: seq<Byte>, ghost p: nat, ghost q: nat, ghost blk0: seq<Block>, ghost addrs0: seq<Word>,
                       ghost owner0: map<nat, Slot>, ghost off0: nat, ghost done: nat, ghost hi: nat, ghost dats: set<nat>)
      returns (addrs': seq<Word>, ghost dats': set<nat>)
      requires p <= q <= |data| && piece == data[p..q]
      requires off0 + p == fbn * BSIZE + at && at + (q - p) <= BSIZE && at < BSIZE
      requires fbn == BlockOf(off0) + done < hi <= MAXFILE && |addrs| == NDIRECT + 1
      requires Appending(inum, addrs, blk0, addrs0, owner0, off0, data[..p], done, dats)
      requires freeblock + Need(Img(), addrs, fbn, hi) <= FSSIZE
      modifies this`blk, this`freeblock, this`owner
      ensures |addrs'| == NDIRECT + 1 && |blk| == FSSIZE && freeblock <= FSSIZE
      ensures Appending(inum, addrs', blk0, addrs0, owner0, off0, data[..q], done + 1, dats')
      ensures freeblock + Need(Img(), addrs', fbn + 1, hi) <= old(freeblock) + Need(old(Img()), addrs, fbn, hi)
    {
      hide Writing, BitmapOk, OwnOk, SameBytes, OthersSame, SlotsAfterBmap, FileBlock, Splice, Final, Need, NeedAt, FsOk,
        Blank, Missing, BlockOf, Holding;
      ghost var blk1, owner1 := Img(), owner;
      NeedCovers(Img(), addrs, fbn, hi);
      AppendingHolds(inum, addrs, blk0, addrs0, owner0, off0, data[..p], done, dats);
      var x;
      addrs', x := MapBlock(inum, addrs, fbn);
      HoldingFacts(inum, addrs');
      dats' := dats + {x};
      assert |piece| == q - p && p + (q - p) == q;
      AppendStep(blk0, addrs0, owner0, off0, data, p, q - p, fbn, at, done, blk1, owner1, inum, addrs, dats,
                 Img(), owner, addrs', x);
      NeedAfterStep(blk1, addrs, Img(), owner, inum, addrs', fbn, hi, x, Splice(Img()[x], at, piece));
      CopyIn(inum, addrs', x, at, piece, fbn);
    }

    lemma AppendingHolds(inum: nat, addrs: seq<Word>, blk0: seq<Block>, addrs0: seq<Word>, owner0: map<nat, Slot>,
                         off0: nat, prefix: seq<Byte>, done: nat, dats: set<nat>)
      requires Appending(inum, addrs, blk0, addrs0, owner0, off0, prefix, done, dats)
      ensures Holding(inum, addrs)
    {
    }

    lemma HoldingFacts(inum: nat, addrs: seq<Word>)
      requires Holding(inum, addrs)
      ensures Counters() && BitmapOk(SB, Img(), owner) && OwnOk(Img(), owner, inum, addrs)
    {
    }

    lemma NeedCovers(blk: seq<Block>, addrs: seq<Word>, lo: nat, hi: nat)
      requires |addrs| == NDIRECT + 1 && lo < hi <= MAXFILE
      ensures NeedAt(blk, addrs, lo) <= Need(blk, addrs, lo, hi)
    {
      MissingFirst(blk, addrs, lo, hi);
    }

    constructor ()
      ensures Valid() && freeinode == 1 && freeblock == NMETA
      ensures made == Heads(false, 0) && forall i :: 0 <= i < NINODES ==> contents[i] == []
    {
      blk := ZeroImage(FSSIZE);
      freeinode, freeblock := 1, NMETA;
      owner, contents, made := map[], NoContents(NINODES), Heads(false, 0);
      new;
      SbGood();
      EmptyImageOk();
    }

    /** rinode. */
    method Rinode(inum: nat) returns (d: Dinode)
      requires Counters() && FsOk(SB, Img(), owner) && inum < NINODES
      ensures d == DinodeOn(SB, Img(), inum) && DinodeOk(d)
      ensures BitmapOk(SB, Img(), owner) && OwnOk(Img(), owner, inum, d.addrs)
    {
      SbGood();
      WinodeIsIupdate(blk, freeblock, inum, NO_INODE);
      d := DinodeIn(blk[IBlock(SB, inum)], inum % IPB);
    }

    /** winode. */
    method Winode(inum: nat, d: Dinode)
      requires Counters() && inum < NINODES && DinodeOk(d)
      modifies this`blk
      ensures Counters() && Disk(SB, old(Img())) && Img() == Iupdated(SB, old(Img()), inum, d)
    {
      SbGood();
      WinodeIsIupdate(blk, freeblock, inum, d);
      var b := IBlock(SB, inum);
      var put: Block := PutDinode(blk[b], inum % IPB, d);
      blk := blk[b := put];
    }

    /** The image is good again once inode inum is written back and its new contents are c. */
    lemma GoodAgain(blk0: seq<Block>, owner0: map<nat, Slot>, contents0: seq<seq<Byte>>, made0: seq<Dinode>, freeinode0: nat,
                    blk1: seq<Block>, inum: nat, d: Dinode, c: seq<Byte>)
      requires Headed(blk0, made0) && inum < |made0| && made == made0[inum := HeadOf(d)]
      requires FsOk(SB, blk0, owner0) && Files(blk0, contents0, freeinode0) && DinodeOk(d)
      requires inum < freeinode && freeinode0 <= freeinode
      requires OthersSame(SB, blk0, owner0, blk1, owner, inum) && BitmapOk(SB, blk1, owner) && OwnOk(blk1, owner, inum, d.addrs)
      requires Counters() && Img() == Iupdated(SB, blk1, inum, d) && contents == contents0[inum := c]
      requires FileIs(Img(), d, c)
      ensures Valid() && DinodeOn(SB, Img(), inum) == d
      ensures forall i :: 0 <= i < NINODES && i != inum ==> DinodeOn(SB, Img(), i) == DinodeOn(SB, blk0, i)
    {
      SbGood();
      hide FsOk, BitmapOk, OwnOk, OthersSame, OtherFilesSame, FileIs, Iupdated, Final, Blank, DinodeOn, Files, Headed;
      WriteBackRestores(SB, blk0, owner0, blk1, owner, inum, d);
      FilesAgain(blk0, owner0, contents0, freeinode0, blk1, owner, inum, d, c, freeinode);
      FsDisk(Img(), owner);
      HeadedAgain(blk0, made0, Img(), inum, d);
    }

    lemma UnusedInode(inum: nat)
      requires Valid() && freeinode <= inum < NINODES
      ensures BitmapOk(SB, Img(), owner) && OwnOk(Img(), owner, inum, NO_BLOCKS)
      ensures OthersSame(SB, Img(), owner, Img(), owner, inum)
    {
      SbGood();
      assert OwnOk(Img(), owner, inum, DinodeOn(SB, Img(), inum).addrs);
      hide OwnOk, BitmapOk, OthersSame, FileIs;
      NothingChanged(SB, Img(), owner, inum, NO_BLOCKS, 0);
    }

    /** ialloc. */
    method Ialloc(typ: Half) returns (inum: nat)
      requires Valid() && freeinode < NINODES
      modifies this`blk, this`freeinode, this`contents, this`made
      ensures Valid() && inum == old(freeinode) && freeinode == inum + 1 && contents == old(contents)[inum := []]
      ensures made == old(made)[inum := NO_INODE.(typ := typ, nlink := 1)]
      ensures DinodeOn(SB, Img(), inum) == NO_INODE.(typ := typ, nlink := 1)
      ensures forall i :: 0 <= i < NINODES && i != inum ==> DinodeOn(SB, Img(), i) == old(DinodeOn(SB, Img(), i))
    {
      ghost var f := Img();
      inum := freeinode;
      var d := NO_INODE.(typ := typ, nlink := 1);
      UnusedInode(inum);
      hide OwnOk, BitmapOk, OthersSame, FileIs, FsOk, Files, Final, Iupdated, DinodeOn, Headed;
      freeinode := freeinode + 1;
      Winode(inum, d);
      contents, made := contents[inum := []], made[inum := d];
      NoBlocksIsEmpty(Img(), d);
      GoodAgain(f, owner, old(contents), old(made), inum, f, inum, d, []);
    }

    lemma AppendingFacts(inum: nat, addrs: seq<Word>, blk0: seq<Block>, addrs0: seq<Word>, owner0: map<nat, Slot>,
                         off0: nat, prefix: seq<Byte>, done: nat, dats: set<nat>)
      requires Appending(inum, addrs, blk0, addrs0, owner0, off0, prefix, done, dats)
      ensures Counters() && |addrs| == NDIRECT + 1
      ensures Writing(SB, blk0, addrs0, owner0, off0, prefix, done, Img(), owner, inum, addrs, dats, {}, dats)
      ensures BitmapOk(SB, Img(), owner) && OwnOk(Img(), owner, inum, addrs) && OthersSame(SB, blk0, owner0, Img(), owner, inum)
    {
    }

    lemma StartAppending(inum: nat, addrs: seq<Word>, size: nat, data: seq<Byte>)
      requires Counters() && BitmapOk(SB, Img(), owner) && OwnOk(Img(), owner, inum, addrs)
      requires size + |data| <= MAXFILE * BSIZE && |addrs| == NDIRECT + 1
      ensures Appending(inum, addrs, Img(), addrs, owner, size, data[..0], 0, {})
      ensures Room(addrs, size, |data|, 0, freeblock + NeedToAppend(Img(), addrs, size, |data|))
      ensures AtBlock(size, |data|, 0, 0)
    {
      StartWriting(SB, Img(), owner, inum, addrs, size);
      AppendFits(size, |data|);
      assert data[..0] == [];
    }

    /** The file block at off, the place in it, and how many of the n bytes left go there. */
    static method PassSize(off: nat, n: nat, ghost size: nat, ghost total: nat, ghost p: nat, ghost done: nat)
      returns (fbn: nat, at: nat, n1: nat)
      requires p < total && n == total - p && off == size + p && AtBlock(size, total, p, done)
      ensures fbn == BlockOf(size) + done && off == fbn * BSIZE + at && at < BSIZE && at + n1 <= BSIZE
      ensures 1 <= n1 <= n && AtBlock(size, total, p + n1, done + 1) && done < Touched(size, total)
    {
      fbn := BlockOf(off);
      n1 := Min(n, (fbn + 1) * BSIZE - off);
      PassEnds(size, total, p, n1, done);
      at := off - fbn * BSIZE;
    }

    /** A pass of iappend's loop: the n1 bytes of data from p on go to byte off of the file. */
    method AppendPass(ghost inum: nat, addrs: seq<Word>, off: nat, data: seq<Byte>, p: nat, ghost blk0: seq<Block>,
                      ghost addrs0: seq<Word>, ghost owner0: map<nat, Slot>, ghost size: nat, ghost done: nat,
                      ghost room: nat, ghost dats: set<nat>)
      returns (addrs': seq<Word>, n1: nat, ghost dats': set<nat>)
      requires p < |data| && off == size + p && size + |data| <= MAXFILE * BSIZE && AtBlock(size, |data|, p, done)
      requires Appending(inum, addrs, blk0, addrs0, owner0, size, data[..p], done, dats)
      requires Room(addrs, size, |data|, done, room) && room <= FSSIZE
      modifies this`blk, this`freeblock, this`owner
      ensures 1 <= n1 <= |data| - p && AtBlock(size, |data|, p + n1, done + 1)
      ensures Appending(inum, addrs', blk0, addrs0, owner0, size, data[..p + n1], done + 1, dats')
      ensures Room(addrs', size, |data|, done + 1, room)
    {
      hide *;
      var fbn, at;
      fbn, at, n1 := PassSize(off, |data| - p, size, |data|, p, done);
      ghost var hi, q := BlockOf(size) + Touched(size, |data|), p + n1;
      RoomNow(addrs, size, |data|, done, room, fbn, hi);
      addrs', dats' := AppendBlock(inum, addrs, fbn, at, data[p..p + n1], data, p, q, blk0, addrs0, owner0, size, done, hi, dats);
      RoomAgain(addrs', size, |data|, done + 1, room, fbn + 1, hi);
    }

    lemma RoomNow(addrs: seq<Word>, size: nat, n: nat, done: nat, room: nat, fbn: nat, hi: nat)
      requires Room(addrs, size, n, done, room) && done < Touched(size, n)
      requires fbn == BlockOf(size) + done && hi == BlockOf(size) + Touched(size, n)
      ensures |blk| == FSSIZE && freeblock <= FSSIZE && |addrs| == NDIRECT + 1 && fbn < hi <= MAXFILE
      ensures freeblock + Need(Img(), addrs, fbn, hi) <= room
    {
    }

    lemma RoomAgain(addrs: seq<Word>, size: nat, n: nat, done: nat, room: nat, fbn: nat, hi: nat)
      requires |blk| == FSSIZE && freeblock <= FSSIZE && |addrs| == NDIRECT + 1 && done <= Touched(size, n)
      requires fbn == BlockOf(size) + done && hi == BlockOf(size) + Touched(size, n) && fbn <= hi <= MAXFILE
      requires freeblock + Need(Img(), addrs, fbn, hi) <= room
      ensures Room(addrs, size, n, done, room)
    {
    }

    /** iappend's loop. */
    method AppendBlocks(ghost inum: nat, addrs0: seq<Word>, size: nat, data: seq<Byte>)
      returns (addrs: seq<Word>, off: nat, ghost dats: set<nat>)
      requires Counters() && BitmapOk(SB, Img(), owner) && OwnOk(Img(), owner, inum, addrs0)
      requires size + |data| <= MAXFILE * BSIZE
      requires |addrs0| == NDIRECT + 1 && freeblock + NeedToAppend(Img(), addrs0, size, |data|) <= FSSIZE
      modifies this`blk, this`freeblock, this`owner
      ensures |addrs0| == NDIRECT + 1 && off == size + |data|
      ensures Appending(inum, addrs, old(Img()), addrs0, old(owner), size, data, Touched(size, |data|), dats)
      ensures freeblock <= old(freeblock) + NeedToAppend(old(Img()), addrs0, size, |data|) <= FSSIZE
    {
      ghost var f, owner0, done := Img(), owner, 0;
      ghost var room := freeblock + NeedToAppend(f, addrs0, size, |data|);
      StartAppending(inum, addrs0, size, data);
      addrs, off, dats := addrs0, size, {};
      hide *;
      var p := 0;
      while p < |data|
        invariant 0 <= p <= |data| && off == size + p && AtBlock(size, |data|, p, done)
        invariant Appending(inum, addrs, f, addrs0, owner0, size, data[..p], done, dats)
        invariant Room(addrs, size, |data|, done, room)
      {
        var n1;
        addrs, n1, dats := AppendPass(inum, addrs, off, data, p, f, addrs0, owner0, size, done, room, dats);
        done, off, p := done + 1, off + n1, p + n1;
      }
      assert data[..p] == data;
      RoomLeft(addrs, size, |data|, done, room);
    }

    lemma RoomLeft(addrs: seq<Word>, size: nat, n: nat, done: nat, room: nat)
      requires Room(addrs, size, n, done, room) && AtBlock(size, n, n, done)
      ensures freeblock <= room && done == Touched(size, n)
    {
    }

    /** iappend.  The caller leaves room: MAXFILE is the assertion in the loop, and the disk must hold the
      * blocks the append needs.  The file becomes the concatenation, no other file changes.
      */
    method Iappend(inum: nat, data: seq<Byte>)
      requires Valid() && 1 <= inum < freeinode && |contents[inum]| + |data| <= MAXFILE * BSIZE
      requires freeblock + NeedToAppend(Img(), DinodeOn(SB, Img(), inum).addrs, |contents[inum]|, |data|) <= FSSIZE
      modifies this`blk, this`freeblock, this`owner, this`contents
      ensures Valid() && contents == old(contents)[inum := old(contents)[inum] + data]
      ensures freeblock
        <= old(freeblock) + old(NeedToAppend(Img(), DinodeOn(SB, Img(), inum).addrs, |contents[inum]|, |data|))
    {
      ghost var f, owner0, c := Img(), owner, contents[inum];
      var din := Rinode(inum);
      ghost var d0 := din;
      assert d0.size == |c| && made[inum := HeadOf(d0)] == made;
      hide Headed, Files, FsOk, FileIs, Final, Blank, BitmapOk, OwnOk, OthersSame, Writing, NeedToAppend, DinodeOn, Iupdated;
      var addrs, off, dats := AppendBlocks(inum, din.addrs, din.size, data);
      ghost var blk1 := Img();
      AppendingFacts(inum, addrs, f, d0.addrs, owner0, |c|, data, Touched(|c|, |data|), dats);
      din := din.(addrs := addrs, size := off);
      Winode(inum, din);
      contents := contents[inum := contents[inum] + data];
      AppendedFileIs(f, d0, c, data, owner0, blk1, owner, inum, din, dats, {}, dats);
      GoodAgain(f, owner0, old(contents), made, freeinode, blk1, inum, din, c + data);
    }

    /** balloc: writes the bitmap with the first freeblock bits set. */
    method Balloc()
      requires Counters()
      modifies this`blk
      ensures Counters() && blk == Img() == old(Img())
    {
      SbGood();
      ghost var f := Img();
      var buf: Block := Zero();
      var i := 0;
      while i < freeblock
        invariant 0 <= i <= freeblock && buf == BitmapOf(i)
      {
        buf := SetBit(buf, i);
        i := i + 1;
      }
      blk := blk[SB.bmapstart := buf];
      assert Img() == f;
    }

    /** The image after the fix of the root's size: every other file holds its contents, and root is rounded up. */
    ghost predicate Finished(root: nat)
      reads this
    {
      && Counters() && FsOk(SB, Img(), owner) && root < NINODES && FilesBut(Img(), contents, root)
      && RootIs(Img(), DinodeOn(SB, Img(), root), contents[root]) && Headed(Img(), made)
    }

    /** The fix of the root's size at the end of main: off = ((off / BSIZE) + 1) * BSIZE.  The directory is
      * padded with zeros; it stays hole-free exactly when its size was not a multiple of BSIZE.
      */
    method FixRoot(inum: nat)
      requires Valid() && inum < freeinode
      modifies this`blk
      ensures Finished(inum)
      ensures DinodeOn(SB, Img(), inum) == old(DinodeOn(SB, Img(), inum)).(size := (|contents[inum]| / BSIZE + 1) * BSIZE)
      ensures OtherFilesSame(SB, old(Img()), Img(), inum)
    {
      ghost var f := Img();
      var din := Rinode(inum);
      assert FileIs(f, din, contents[inum]) && made[inum := HeadOf(din)] == made;
      hide FsOk, Files, BitmapOk, OwnOk, OthersSame, Iupdated, HoleFree, Final, Blank, DinodeOn, FileIs, RootIs, Headed;
      RoundedFile(f, din, contents[inum]);
      var off := (din.size / BSIZE + 1) * BSIZE;
      din := din.(size := off);
      NothingChanged(SB, f, owner, inum, din.addrs, 0);
      WriteBackRestores(SB, f, owner, f, owner, inum, din);
      Winode(inum, din);
      FixedFiles(f, owner, contents, freeinode, inum, din);
      HeadedAgain(f, made, Img(), inum, din);
    }
  }

  /** Every file but root holds its contents. */
  ghost predicate FilesBut(blk: seq<Block>, contents: seq<seq<Byte>>, root: nat) {
    && Disk(SB, blk) && |contents| == NINODES
    && forall i :: 0 <= i < NINODES && i != root ==> FileIs(blk, DinodeOn(SB, blk, i), contents[i])
  }

  /** A file with contents c, its size rounded up past the next block boundary: zeros after the end, and a hole exactly
    * when the size was a multiple of BSIZE.
    */
  ghost predicate RootIs(blk: seq<Block>, d: Dinode, c: seq<Byte>) {
    && DinodeOk(d) && d.size == (|c| / BSIZE + 1) * BSIZE
    && (HoleFree(blk, d.addrs, d.size) <==> |c| % BSIZE != 0)
    && forall x :: 0 <= x < MAXFILE * BSIZE ==> ByteAt(blk, d.addrs, x) == Padded(c, x)
  }

  lemma RoundedFile(blk: seq<Block>, d: Dinode, c: seq<Byte>)
    requires FileIs(blk, d, c)
    ensures d.size == |c| <= MAXFILE * BSIZE && DinodeOk(d) && RootIs(blk, d.(size := (|c| / BSIZE + 1) * BSIZE), c)
  {
    RoundedSize(d.size, blk, d.addrs);
  }

  /** Writing an inode back with another size, and the same blocks. */
  lemma FixedFiles(blk: seq<Block>, owner: map<nat, Slot>, contents: seq<seq<Byte>>, freeinode: nat, inum: nat, d: Dinode)
    requires FsOk(SB, blk, owner) && Files(blk, contents, freeinode) && inum < NINODES && BitmapOk(SB, blk, owner)
    requires OwnOk(blk, owner, inum, d.addrs) && OthersSame(SB, blk, owner, blk, owner, inum) && RootIs(blk, d, contents[inum])
    ensures var r := Iupdated(SB, blk, inum, d);
      && FilesBut(r, contents, inum) && DinodeOn(SB, r, inum) == d && RootIs(r, d, contents[inum])
      && forall i :: 0 <= i < NINODES && i != inum ==> DinodeOn(SB, r, i) == DinodeOn(SB, blk, i)
  {
    hide FsOk, BitmapOk, OthersSame, FileIs, Iupdated, DinodeOn, HoleFree, OwnOk, SameBytes;
    var r := Iupdated(SB, blk, inum, d);
    IupdatedDinode(SB, blk, inum, d, inum);
    RewrittenRoot(blk, owner, inum, d, contents[inum]);
    forall i: nat | i < NINODES && i != inum
      ensures FileIs(r, DinodeOn(SB, r, i), contents[i]) && DinodeOn(SB, r, i) == DinodeOn(SB, blk, i)
    {
      OtherFileIs(blk, owner, blk, owner, inum, d, i, contents[i]);
    }
  }

  lemma RewrittenRoot(blk: seq<Block>, owner: map<nat, Slot>, inum: nat, d: Dinode, c: seq<Byte>)
    requires BitmapOk(SB, blk, owner) && inum < NINODES && OwnOk(blk, owner, inum, d.addrs) && RootIs(blk, d, c)
    ensures RootIs(Iupdated(SB, blk, inum, d), d, c)
  {
    var r := Iupdated(SB, blk, inum, d);
    hide BitmapOk, OwnOk, Iupdated, HoleFree, ByteAt;
    RewrittenSize(blk, owner, inum, d.addrs, d);
    forall x: nat | x < MAXFILE * BSIZE
      ensures ByteAt(r, d.addrs, x) == Padded(c, x)
    {
      assert ByteAt(r, d.addrs, x) == ByteAt(blk, d.addrs, x);
    }
  }

  /** Rewriting an inode with the same blocks changes neither its slots nor its bytes. */
  lemma RewrittenSize(blk: seq<Block>, owner: map<nat, Slot>, inum: nat, addrs: seq<Word>, d: Dinode)
    requires BitmapOk(SB, blk, owner) && inum < NINODES && DinodeOk(d) && addrs == d.addrs && OwnOk(blk, owner, inum, addrs)
    ensures var r := Iupdated(SB, blk, inum, d);
      SameBytes(blk, addrs, r, addrs) && (HoleFree(r, addrs, d.size) <==> HoleFree(blk, addrs, d.size))
  {
    var r := Iupdated(SB, blk, inum, d);
    IupdatedElsewhere(SB, blk, inum, d);
    IupdateKeepsSlots(SB, blk, owner, inum, d, inum, addrs);
    hide BitmapOk, OwnOk, Iupdated, DataSame, SlotAddr;
    forall bn: nat | bn < MAXFILE
      ensures FileBlock(r, addrs, bn) == FileBlock(blk, addrs, bn)
    {
      DataSameSlot(SB, blk, r, owner, inum, addrs, SlotOf(bn));
    }
  }

  /** Rounding a tight file's size up as mkfs does leaves a hole exactly when the size is a multiple of
    * BSIZE already: then the last block the new size covers was never allocated.
    */
  lemma RoundedSize(size: nat, blk: seq<Block>, addrs: seq<Word>)
    requires |addrs| == NDIRECT + 1 && Tight(blk, addrs, size)
    ensures HoleFree(blk, addrs, (size / BSIZE + 1) * BSIZE) <==> size % BSIZE != 0
  {
    if size % BSIZE == 0 && size < MAXFILE * BSIZE {
      assert FileBlock(blk, addrs, size / BSIZE) == 0;
    }
  }

  // ----- the kernel on the image mkfs leaves

  /** The kernel's readi on an inode mkfs filled returns the appended bytes and allocates nothing. */
  method KernelReads(img: Image, inum: nat, off: nat, n: nat) returns (dst: seq<Byte>)
    requires img.Counters() && FsOk(SB, img.Img(), img.owner) && img.blk == img.Img()
    requires inum < NINODES <= |img.contents| && FileIs(img.blk, DinodeOn(SB, img.blk, inum), img.contents[inum])
    requires off <= |img.contents[inum]| && off + n < U32
    ensures var c := img.contents[inum]; dst == c[off..off + Min(n, |c| - off)]
  {
    var d := img.Rinode(inum);
    ghost var c, owner := img.contents[inum], img.owner;
    var blk := img.blk;
    SizesOf(blk, d, c);
    TightHoleFree(blk, d.addrs, d.size);
    hide FsOk, Files, FileIs, Tight, HoleFree, BitmapOk, OwnOk, Final, Blank, DinodeOn, Bytes, SameBytes, OthersSame;
    var fs := new Fs.FileSystem(SB, blk, owner);
    var ip := new Fs.Inode(inum, d);
    var panic, ret;
    panic, ret, dst := fs.Readi(ip, off, n);
    PaddedSlice(blk, d, c, off, ret);
  }

  /** The kernel's readi on the root directory: its entries, then zeros up to the rounded size.  Reading past the
    * entries of a directory that filled its blocks meets the hole, and allocates a block for it; that panics on a
    * full disk, and nothing else does.
    */
  method KernelReadsRoot(img: Image, root: nat, off: nat, n: nat) returns (panic: bool, dst: seq<Byte>)
    requires img.Finished(root) && img.blk == img.Img() && |img.contents[root]| < MAXFILE * BSIZE
    requires off <= (|img.contents[root]| / BSIZE + 1) * BSIZE && off + n < U32
    ensures panic ==> |img.contents[root]| % BSIZE == 0
    ensures var c := img.contents[root]; var m := Min(n, (|c| / BSIZE + 1) * BSIZE - off);
      !panic ==> |dst| == m && forall k :: 0 <= k < m ==> dst[k] == Padded(c, off + k)
  {
    var d := img.Rinode(root);
    ghost var c, owner := img.contents[root], img.owner;
    var blk := img.blk;
    RootSize(blk, d, c);
    hide FsOk, FilesBut, RootIs, HoleFree, BitmapOk, OwnOk, Final, Blank, DinodeOn, Bytes, SameBytes, OthersSame;
    var fs := new Fs.FileSystem(SB, blk, owner);
    var ip := new Fs.Inode(root, d);
    var ret;
    panic, ret, dst := fs.Readi(ip, off, n);
    if !panic {
      RootSlice(blk, d, c, off, ret);
    }
  }

  lemma RootSize(blk: seq<Block>, d: Dinode, c: seq<Byte>)
    requires RootIs(blk, d, c) && |c| < MAXFILE * BSIZE
    ensures |d.addrs| == NDIRECT + 1 && d.size == (|c| / BSIZE + 1) * BSIZE <= MAXFILE * BSIZE
    ensures HoleFree(blk, d.addrs, d.size) <==> |c| % BSIZE != 0
  {
  }

  lemma RootSlice(blk: seq<Block>, d: Dinode, c: seq<Byte>, off: nat, n: nat)
    requires RootIs(blk, d, c) && off + n <= MAXFILE * BSIZE
    ensures |d.addrs| == NDIRECT + 1
    ensures var r := Bytes(blk, d.addrs, off, off + n); |r| == n && forall k :: 0 <= k < n ==> r[k] == Padded(c, off + k)
  {
  }

  lemma FsDisk(blk: seq<Block>, owner: map<nat, Slot>)
    requires FsOk(SB, blk, owner)
    ensures Disk(SB, blk)
  {
  }

  lemma SizesOf(blk: seq<Block>, d: Dinode, c: seq<Byte>)
    requires FileIs(blk, d, c)
    ensures |d.addrs| == NDIRECT + 1 && d.size == |c| <= MAXFILE * BSIZE && Tight(blk, d.addrs, d.size)
  {
  }

  lemma PaddedSlice(blk: seq<Block>, d: Dinode, c: seq<Byte>, off: nat, n: nat)
    requires FileIs(blk, d, c) && off + n <= |c|
    ensures |c| <= MAXFILE * BSIZE && Bytes(blk, d.addrs, off, off + n) == c[off..off + n]
  {
  }

  /** The kernel's balloc gives out exactly the block mkfs would have used next: it avoids every block
    * mkfs used, and finds the disk full only when mkfs used all of it.
    */
  method KernelBallocs(img: Image) returns (r: Option<nat>)
    requires img.Counters() && FsOk(SB, img.Img(), img.owner) && img.blk == img.Img()
    ensures r == if img.freeblock < FSSIZE then Some(img.freeblock) else None
    ensures forall a :: a in img.owner ==> r != Some(a)
  {
    SbGood();
    var blk, used := img.blk, img.freeblock;
    forall b: nat | b < FSSIZE
      ensures Used(SB, blk, b) <==> b < used
    {
      FinalUsed(blk, used, b);
    }
    forall a | a in img.owner
      ensures a < used
    {
      assert BitRight(SB, blk, img.owner, a);
    }
    var fs := new Fs.FileSystem(SB, blk, img.owner);
    assert used < FSSIZE ==> !Used(SB, blk, used);
    r := fs.Balloc();
  }

  // ----- mkfs from the command line to the finished image

  const ROOTINO: nat := 1
  const T_DIR: Half := 1
  const T_FILE: Half := 2
  const DIRSIZ: nat := 14
  const DIRENT: nat := 16
  const UNDERSCORE: Byte := 95
  const DOT: Byte := 46

  /** A file named on the command line, and its contents as the calls of read returned them. */
  datatype Source = Source(name: seq<Byte>, chunks: seq<seq<Byte>>)

  function Flatten(chunks: seq<seq<Byte>>): seq<Byte> {
    if chunks == [] then [] else Flatten(chunks[..|chunks| - 1]) + chunks[|chunks| - 1]
  }

  /** struct dirent: a little-endian short and the name, cut or padded to DIRSIZ bytes. */
  function Dirent(inum: nat, name: seq<Byte>): (r: seq<Byte>)
    requires inum < NINODES
    ensures |r| == DIRENT
  {
    var cut := if |name| < DIRSIZ then name else name[..DIRSIZ];
    [inum % 256, inum / 256] + cut + Zeros(DIRSIZ - |cut|)
  }

  /** What namex and dirlookup read in an entry: the inode number, then the name's bytes up to DIRSIZ, NUL-padded. */
  lemma DirentReads(inum: nat, name: seq<Byte>)
    requires inum < NINODES
    ensures var r := Dirent(inum, name);
      && r[0] + 256 * r[1] == inum
      && forall k :: 0 <= k < 14 ==> r[2 + k] == if k < |name| then name[k] else 0
  {
    var cut := if |name| < DIRSIZ then name else name[..DIRSIZ];
    forall k | 0 <= k < 14
      ensures Dirent(inum, name)[2 + k] == if k < |name| then name[k] else 0
    {
      assert ([inum % 256, inum / 256] + (cut + Zeros(DIRSIZ - |cut|)))[2 + k] == (cut + Zeros(DIRSIZ - |cut|))[k];
    }
  }

  /** argv[i] without its leading underscore. */
  function Stripped(name: seq<Byte>): seq<Byte> {
    if name != [] && name[0] == UNDERSCORE then name[1..] else name
  }

  /** The root directory with entries for ".", ".." and the first k files. */
  function Entries(files: seq<Source>, k: nat): (r: seq<Byte>)
    requires k <= |files| && |files| + 2 <= NINODES
    ensures |r| == (k + 2) * DIRENT
  {
    if k == 0 then Dirent(ROOTINO, [DOT]) + Dirent(ROOTINO, [DOT, DOT])
    else Entries(files, k - 1) + Dirent(ROOTINO + k, Stripped(files[k - 1].name))
  }

  /** Entry i of a directory's contents reads as inode inum under the name's first DIRSIZ bytes. */
  predicate ReadsAs(dir: seq<Byte>, i: nat, inum: nat, name: seq<Byte>)
    requires 16 * i + 16 <= |dir|
  {
    && inum == (dir[16 * i + 1] as int) * 256 + dir[16 * i]
    && forall j :: 0 <= j < 14 ==> dir[16 * i + 2 + j] == if j < |name| then name[j] else 0
  }

  lemma EntryReads(before: seq<Byte>, i: nat, inum: nat, name: seq<Byte>)
    requires |before| == 16 * i && inum < NINODES
    ensures ReadsAs(before + Dirent(inum, name), i, inum, name)
  {
    DirentReads(inum, name);
    var e := Dirent(inum, name);
    hide Dirent;
    assert forall j :: 0 <= j < 16 ==> (before + e)[16 * i + j] == e[j];
    forall j | 0 <= j < 14
      ensures (before + e)[16 * i + 2 + j] == if j < |name| then name[j] else 0
    {
      assert e[2 + j] == if j < |name| then name[j] else 0;
    }
  }

  lemma ReadsStill(dir: seq<Byte>, more: seq<Byte>, i: nat, inum: nat, name: seq<Byte>)
    requires 16 * i + 16 <= |dir| && ReadsAs(dir, i, inum, name)
    ensures ReadsAs(dir + more, i, inum, name)
  {
  }

  /** The root directory: itself as "." and "..", then each file, in order, under its name without a leading
    * underscore, with the inode that AddFile gave it.
    */
  lemma {:induction false} RootEntries(files: seq<Source>, n: nat, k: nat)
    requires k < n <= |files| && |files| + 2 <= NINODES
    ensures ReadsAs(Entries(files, n), 0, 1, [46]) && ReadsAs(Entries(files, n), 1, 1, [46, 46])
    ensures var name := files[k].name;
      ReadsAs(Entries(files, n), k + 2, k + 2, if name != [] && name[0] == 95 then name[1..] else name)
  {
    hide Dirent, ReadsAs;
    var before := Entries(files, n - 1);
    var last := Stripped(files[n - 1].name);
    if n == 1 {
      EntryReads([], 0, ROOTINO, [DOT]);
      assert [] + Dirent(ROOTINO, [DOT]) == Dirent(ROOTINO, [DOT]);
      EntryReads(Dirent(ROOTINO, [DOT]), 1, ROOTINO, [DOT, DOT]);
      ReadsStill(Dirent(ROOTINO, [DOT]), Dirent(ROOTINO, [DOT, DOT]), 0, ROOTINO, [DOT]);
    } else {
      RootEntries(files, n - 1, if k < n - 1 then k else 0);
      if k < n - 1 {
        ReadsStill(before, Dirent(ROOTINO + n, last), k + 2, k + 2, Stripped(files[k].name));
      }
    }
    ReadsStill(before, Dirent(ROOTINO + n, last), 0, ROOTINO, [DOT]);
    ReadsStill(before, Dirent(ROOTINO + n, last), 1, ROOTINO, [DOT, DOT]);
    EntryReads(before, n + 1, ROOTINO + n, last);
  }

  /** What each inode is to hold: nothing in inode 0, the root directory, then the files in order. */
  function Plan(files: seq<Source>): (r: seq<seq<Byte>>)
    requires |files| + 2 <= NINODES
    ensures |r| == NINODES
    ensures r[ROOTINO] == Entries(files, |files|)
    ensures forall k :: 0 <= k < |files| ==> r[ROOTINO + 1 + k] == Flatten(files[k].chunks)
  {
    seq(NINODES, i requires 0 <= i =>
      if i == ROOTINO then Entries(files, |files|)
      else if ROOTINO < i <= ROOTINO + |files| then Flatten(files[i - ROOTINO - 1].chunks)
      else [])
  }

  /** The blocks a tight file of n bytes takes, with its indirect block. */
  function BlocksFor(n: nat): nat {
    (n + BSIZE - 1) / BSIZE + if n > NDIRECT * BSIZE then 1 else 0
  }

  function BlocksForAll(contents: seq<seq<Byte>>): nat {
    if contents == [] then 0
    else BlocksForAll(contents[..|contents| - 1]) + BlocksFor(|contents[|contents| - 1]|)
  }

  lemma BlocksForGrows(m: nat, n: nat)
    requires m <= n
    ensures BlocksFor(m) <= BlocksFor(n)
  {
  }

  /** contents has grown to no more than plan. */
  ghost predicate OnPlan(contents: seq<seq<Byte>>, plan: seq<seq<Byte>>) {
    |contents| == |plan| && forall i :: 0 <= i < |plan| ==> |contents[i]| <= |plan[i]|
  }

  lemma {:induction false} PlanCovers(contents: seq<seq<Byte>>, plan: seq<seq<Byte>>)
    requires OnPlan(contents, plan)
    ensures BlocksForAll(contents) <= BlocksForAll(plan)
    decreases |plan|
  {
    if plan != [] {
      PlanCovers(contents[..|contents| - 1], plan[..|plan| - 1]);
      BlocksForGrows(|contents[|contents| - 1]|, |plan[|plan| - 1]|);
    }
  }

  lemma {:induction false} BlocksForOneMore(contents: seq<seq<Byte>>, i: nat, c: seq<Byte>)
    requires i < |contents|
    ensures BlocksForAll(contents[i := c]) == BlocksForAll(contents) - BlocksFor(|contents[i]|) + BlocksFor(|c|)
    decreases |contents|
  {
    var n := |contents| - 1;
    if i == n {
      assert contents[i := c][..n] == contents[..n];
    } else {
      assert contents[i := c][..n] == contents[..n][i := c];
      BlocksForOneMore(contents[..n], i, c);
    }
  }

  lemma {:induction false} NoBlocksYet(contents: seq<seq<Byte>>)
    requires forall i :: 0 <= i < |contents| ==> contents[i] == []
    ensures BlocksForAll(contents) == 0
    decreases |contents|
  {
    if contents != [] {
      NoBlocksYet(contents[..|contents| - 1]);
    }
  }

  /** An append starts in the file's last block unless that is full. */
  lemma GrowthOf(size: nat, n: nat)
    ensures BlocksFor(size + n) - BlocksFor(size) == Touched(size, n)
      - (if Touched(size, n) > 0 && size % BSIZE != 0 then 1 else 0)
      + (if size <= NDIRECT * BSIZE < size + n then 1 else 0)
  {
  }

  /** What an append needs is what its file's size says. */
  lemma NeedIsGrowth(blk: seq<Block>, d: Dinode, c: seq<Byte>, n: nat)
    requires FileIs(blk, d, c) && |c| + n <= MAXFILE * BSIZE
    ensures NeedToAppend(blk, d.addrs, |c|, n) <= BlocksFor(|c| + n) - BlocksFor(|c|)
  {
    var lo := |c| / BSIZE;
    var hi := lo + Touched(|c|, n);
    AppendFits(|c|, n);
    MissingTight(blk, d.addrs, |c|, lo, hi);
    GrowthOf(|c|, n);
    if n > 0 && hi > NDIRECT && d.addrs[NDIRECT] == 0 {
      assert FileBlock(blk, d.addrs, NDIRECT) == 0;
      LastTouched(|c|, n);
    }
    hide BlocksFor, Missing, FileBlock, Tight;
  }

  lemma LastTouched(size: nat, n: nat)
    requires n > 0
    ensures size / BSIZE + Touched(size, n) > NDIRECT ==> size + n > NDIRECT * BSIZE
  {
  }

  lemma {:induction false} MissingTight(blk: seq<Block>, addrs: seq<Word>, size: nat, lo: nat, hi: nat)
    requires |addrs| == NDIRECT + 1 && lo <= hi <= MAXFILE && Tight(blk, addrs, size) && lo == size / BSIZE
    ensures Missing(blk, addrs, lo, hi) == if hi == lo || size % BSIZE == 0 then hi - lo else hi - lo - 1
    decreases hi
  {
    if lo < hi {
      MissingTight(blk, addrs, size, lo, hi - 1);
    }
  }

  /** iappend with the space the plan reserves. */
  method AddTo(img: Image, inum: nat, data: seq<Byte>, ghost plan: seq<seq<Byte>>)
    requires img.Building(plan) && 1 <= inum < img.freeinode && |img.contents[inum]| + |data| <= |plan[inum]|
    modifies img`blk, img`freeblock, img`owner, img`contents
    ensures img.Building(plan) && img.contents == old(img.contents)[inum := old(img.contents)[inum] + data]
  {
    ghost var contents0, c := img.contents, img.contents[inum];
    ghost var contents' := contents0[inum := c + data];
    assert FileIs(img.Img(), DinodeOn(SB, img.Img(), inum), c);
    NeedIsGrowth(img.Img(), DinodeOn(SB, img.Img(), inum), c, |data|);
    BlocksForOneMore(contents0, inum, c + data);
    PlanCovers(contents', plan);
    hide FsOk, Files, Final, Blank, NeedToAppend, BlocksFor, BlocksForAll, DinodeOn, FileIs;
    img.Iappend(inum, data);
  }

  lemma {:induction false} FlattenGrows(chunks: seq<seq<Byte>>, j: nat)
    requires j <= |chunks|
    ensures |Flatten(chunks[..j])| <= |Flatten(chunks)|
    decreases |chunks|
  {
    if j < |chunks| {
      assert chunks[..|chunks| - 1][..j] == chunks[..j];
      FlattenGrows(chunks[..|chunks| - 1], j);
    } else {
      assert chunks[..j] == chunks;
    }
  }

  lemma FlattenOneMore(chunks: seq<seq<Byte>>, j: nat)
    requires j < |chunks|
    ensures Flatten(chunks[..j + 1]) == Flatten(chunks[..j]) + chunks[j]
    ensures |Flatten(chunks[..j])| + |chunks[j]| <= |Flatten(chunks)|
  {
    assert chunks[..j + 1][..j] == chunks[..j];
    FlattenGrows(chunks, j + 1);
  }

  /** The root directory and the first k files are there, and nothing else. */
  ghost predicate SoFar(contents: seq<seq<Byte>>, files: seq<Source>, k: nat)
    requires k <= |files| && |files| + 2 <= NINODES
  {
    && |contents| == NINODES && contents[ROOTINO] == Entries(files, k) && contents[0] == []
    && (forall j :: 0 <= j < k ==> contents[ROOTINO + 1 + j] == Flatten(files[j].chunks))
    && (forall i :: ROOTINO + k < i < NINODES ==> contents[i] == [])
  }

  lemma AllThere(contents: seq<seq<Byte>>, files: seq<Source>)
    requires |files| + 2 <= NINODES && SoFar(contents, files, |files|)
    ensures contents == Plan(files)
  {
    hide Flatten, Entries;
    var plan := Plan(files);
    forall i | 0 <= i < NINODES
      ensures contents[i] == plan[i]
    {
      if ROOTINO < i <= ROOTINO + |files| {
        var k := i - ROOTINO - 1;
        assert plan[ROOTINO + 1 + k] == Flatten(files[k].chunks) == contents[ROOTINO + 1 + k];
      }
    }
  }

  lemma OneMoreFile(contents: seq<seq<Byte>>, files: seq<Source>, k: nat, contents': seq<seq<Byte>>)
    requires k < |files| && |files| + 2 <= NINODES && SoFar(contents, files, k)
    requires contents' == contents[ROOTINO := Entries(files, k + 1)][ROOTINO + 1 + k := Flatten(files[k].chunks)]
    ensures SoFar(contents', files, k + 1)
  {
    hide Entries, Flatten;
  }

  /** ialloc of an inode that is to be filled. */
  method NewInode(img: Image, typ: Half, ghost plan: seq<seq<Byte>>) returns (inum: nat)
    requires img.Building(plan) && img.freeinode < NINODES <= |img.contents| && img.contents[img.freeinode] == []
    modifies img`blk, img`freeinode, img`contents, img`made
    ensures img.Building(plan) && inum == old(img.freeinode) && img.freeinode == inum + 1 && img.contents == old(img.contents)
    ensures |old(img.made)| == NINODES && img.made == old(img.made)[inum := NO_INODE.(typ := typ, nlink := 1)]
  {
    hide FsOk, Files, Final, Blank, BlocksForAll, DinodeOn, OnPlan;
    ghost var c0 := img.contents;
    inum := img.Ialloc(typ);
    assert img.contents == c0;
  }

  /** The pass of main's loop for one file: its inode, its directory entry, and what read returns. */
  method AddFile(img: Image, ghost files: seq<Source>, k: nat, file: Source)
    requires k < |files| && |files| + 2 <= NINODES && file == files[k] && img.Building(Plan(files))
    requires SoFar(img.contents, files, k) && img.freeinode == ROOTINO + 1 + k && img.made == Heads(true, k)
    modifies img`blk, img`freeinode, img`freeblock, img`owner, img`contents, img`made
    ensures img.Building(Plan(files)) && SoFar(img.contents, files, k + 1) && img.freeinode == ROOTINO + 2 + k
    ensures img.made == Heads(true, k + 1)
  {
    hide Image.Building, Plan, Dirent, Flatten;
    ghost var plan, c0 := Plan(files), img.contents;
    var inum := NewInode(img, T_FILE, plan);
    AddTo(img, ROOTINO, Dirent(inum, Stripped(file.name)), plan);
    ghost var c1 := c0[ROOTINO := Entries(files, k + 1)];
    assert img.contents == c1;
    AddChunks(img, inum, file, plan);
    OneMoreFile(c0, files, k, img.contents);
  }

  /** "while((cc = read(fd, buf, sizeof(buf))) > 0) iappend(inum, buf, cc)". */
  method AddChunks(img: Image, inum: nat, file: Source, ghost plan: seq<seq<Byte>>)
    requires img.Building(plan) && 1 <= inum < img.freeinode && inum < |img.contents| == |plan| && img.contents[inum] == []
    requires plan[inum] == Flatten(file.chunks)
    modifies img`blk, img`freeblock, img`owner, img`contents
    ensures img.Building(plan) && img.contents == old(img.contents)[inum := Flatten(file.chunks)]
  {
    hide Image.Building;
    ghost var c0 := img.contents;
    var j := 0;
    while j < |file.chunks|
      invariant j <= |file.chunks| && img.Building(plan)
      invariant img.contents == c0[inum := Flatten(file.chunks[..j])]
    {
      FlattenOneMore(file.chunks, j);
      AddTo(img, inum, file.chunks[j], plan);
      j := j + 1;
    }
    assert file.chunks[..j] == file.chunks;
  }

  /** mkfs up to the loop over the files: an image with the entries "." and "..". */
  method Start(ghost files: seq<Source>) returns (img: Image)
    requires |files| + 2 <= NINODES && NMETA + BlocksForAll(Plan(files)) <= FSSIZE
    requires forall k :: 0 <= k < |files| ==> |Flatten(files[k].chunks)| <= MAXFILE * BSIZE
    ensures fresh(img) && img.Building(Plan(files)) && SoFar(img.contents, files, 0) && img.freeinode == ROOTINO + 1
    ensures img.made == Heads(true, 0)
  {
    ghost var plan := Plan(files);
    PlanFits(files);
    hide Image.Building, Plan, Dirent, Flatten, SoFar, BlocksForAll, Entries;
    img := Empty(plan);
    AddDots(img, files, plan);
  }

  method AddDots(img: Image, ghost files: seq<Source>, ghost plan: seq<seq<Byte>>)
    requires img.Building(plan) && |files| + 2 <= NINODES == |plan| && |plan[ROOTINO]| >= 2 * DIRENT
    requires img.freeinode == ROOTINO && |img.contents| == NINODES && forall i :: 0 <= i < NINODES ==> img.contents[i] == []
    requires img.made == Heads(false, 0)
    modifies img`blk, img`freeinode, img`freeblock, img`owner, img`contents, img`made
    ensures img.Building(plan) && SoFar(img.contents, files, 0) && img.freeinode == ROOTINO + 1 && img.made == Heads(true, 0)
  {
    hide Image.Building, Dirent, SoFar;
    ghost var c0 := img.contents;
    var rootino := NewInode(img, T_DIR, plan);
    AddTo(img, rootino, Dirent(rootino, [DOT]), plan);
    assert img.contents == c0[ROOTINO := [] + Dirent(ROOTINO, [DOT])];
    AddTo(img, rootino, Dirent(rootino, [DOT, DOT]), plan);
    OnlyDots(c0, files, img.contents);
  }

  lemma PlanFits(files: seq<Source>)
    requires |files| + 2 <= NINODES && forall k :: 0 <= k < |files| ==> |Flatten(files[k].chunks)| <= MAXFILE * BSIZE
    ensures forall i :: 0 <= i < NINODES ==> |Plan(files)[i]| <= MAXFILE * BSIZE
    ensures |Plan(files)[ROOTINO]| == (|files| + 2) * DIRENT
  {
    hide Flatten, Entries;
  }

  lemma OnlyDots(contents: seq<seq<Byte>>, files: seq<Source>, contents': seq<seq<Byte>>)
    requires |files| + 2 <= NINODES == |contents| && forall i :: 0 <= i < NINODES ==> contents[i] == []
    requires contents' == contents[ROOTINO := [] + Dirent(ROOTINO, [DOT]) + Dirent(ROOTINO, [DOT, DOT])]
    ensures SoFar(contents', files, 0)
  {
    hide Dirent, Flatten;
    assert [] + Dirent(ROOTINO, [DOT]) == Dirent(ROOTINO, [DOT]);
  }

  method Empty(ghost plan: seq<seq<Byte>>) returns (img: Image)
    requires |plan| == NINODES && NMETA + BlocksForAll(plan) <= FSSIZE
    requires forall i :: 0 <= i < |plan| ==> |plan[i]| <= MAXFILE * BSIZE
    ensures fresh(img) && img.Building(plan) && img.freeinode == ROOTINO && |img.contents| == NINODES
    ensures img.made == Heads(false, 0) && forall i :: 0 <= i < NINODES ==> img.contents[i] == []
  {
    hide FsOk, Final, Blank, BlocksForAll, FileIs, DinodeOn;
    img := new Image();
    NoBlocksYet(img.contents);
  }

  /** main of mkfs: the root directory with ".", ".." and an entry for each file, the files, the fix of the root's
    * size and the bitmap.  That the files and inodes fit is the caller's: mkfs does not check.
    */
  method Mkfs(files: seq<Source>) returns (img: Image)
    requires |files| + 2 <= NINODES && NMETA + BlocksForAll(Plan(files)) <= FSSIZE
    requires forall k :: 0 <= k < |files| ==> |Flatten(files[k].chunks)| <= MAXFILE * BSIZE
    ensures fresh(img) && img.Finished(ROOTINO) && img.blk == img.Img() && img.contents == Plan(files)
    ensures img.made == Heads(true, |files|)
    ensures img.freeblock <= NMETA + BlocksForAll(Plan(files))
  {
    hide Image.Building, Image.Finished, BlocksForAll, Plan, Flatten, Entries, SoFar, Heads;
    img := Start(files);
    var i := 0;
    while i < |files|
      invariant i <= |files| && fresh(img) && img.Building(Plan(files))
      invariant SoFar(img.contents, files, i) && img.freeinode == ROOTINO + 1 + i && img.made == Heads(true, i)
    {
      AddFile(img, files, i, files[i]);
      i := i + 1;
    }
    AllThere(img.contents, files);
    Finish(img, Plan(files));
  }

  method Finish(img: Image, ghost plan: seq<seq<Byte>>)
    requires img.Building(plan) && img.contents == plan && ROOTINO < img.freeinode
    modifies img`blk
    ensures img.Finished(ROOTINO) && img.blk == img.Img()
    ensures img.freeblock <= NMETA + BlocksForAll(plan)
  {
    hide FsOk, Files, Final, Blank, BlocksForAll, DinodeOn, FilesBut, RootIs, OnPlan;
    img.FixRoot(ROOTINO);
    img.Balloc();
  }

  lemma FinishedFile(img: Image, root: nat, i: nat)
    requires img.Finished(root) && i < NINODES && i != root && img.blk == img.Img()
    ensures img.Counters() && FsOk(SB, img.Img(), img.owner) && |img.contents| == NINODES
    ensures FileIs(img.blk, DinodeOn(SB, img.blk, i), img.contents[i])
  {
    hide FsOk, FileIs, RootIs, DinodeOn, Final, Blank, Headed;
  }

  /** The size of the root directory with entries for n files once it is rounded up. */
  function RootSizeFor(n: nat): nat {
    ((n + 2) * DIRENT / BSIZE + 1) * BSIZE
  }

  lemma RootFits(n: nat)
    requires n + 2 <= NINODES
    ensures RootSizeFor(n) == ((n + 2) * DIRENT / BSIZE + 1) * BSIZE <= MAXFILE * BSIZE < U32
    ensures (n + 2) * DIRENT % BSIZE == 0 <==> (n + 2) % 32 == 0
  {
  }

  /** From mkfs to the kernel: on the finished image the kernel reads every file as it was given, and the root directory
    * as its entries and then zeros, and its allocator gives out the first block mkfs left.  Reading the whole root can
    * fail only if its entries fill their blocks, which is when the number of files and two is a multiple of 32.
    */
  method MkfsThenKernel(files: seq<Source>, k: nat, off: nat, n: nat)
    returns (img: Image, dst: seq<Byte>, panic: bool, entries: seq<Byte>, free: Option<nat>)
    requires |files| + 2 <= NINODES && NMETA + BlocksForAll(Plan(files)) <= FSSIZE
    requires forall j :: 0 <= j < |files| ==> |Flatten(files[j].chunks)| <= MAXFILE * BSIZE
    requires k < |files| && off <= |Flatten(files[k].chunks)| && off + n < U32
    ensures var c := Flatten(files[k].chunks); dst == c[off..off + Min(n, |c| - off)]
    ensures panic ==> (|files| + 2) % 32 == 0
    ensures !panic ==> |entries| == RootSizeFor(|files|)
    ensures !panic ==> forall x :: 0 <= x < |entries| ==> entries[x] == Padded(Entries(files, |files|), x)
    ensures img.Finished(ROOTINO) && img.contents == Plan(files) && img.made == Heads(true, |files|)
    ensures free == if img.freeblock < FSSIZE then Some(img.freeblock) else None
    ensures forall a :: a in img.owner ==> free != Some(a)
    ensures NMETA + BlocksForAll(Plan(files)) < FSSIZE ==> free.Some?
  {
    hide BlocksForAll, Flatten, Entries, Plan, FsOk, RootIs, FileIs, Final, Blank, DinodeOn, Image.Finished, Padded,
      RootSizeFor, Heads;
    img := Mkfs(files);
    PlanFits(files);
    RootFits(|files|);
    FinishedFile(img, ROOTINO, ROOTINO + 1 + k);
    dst := KernelReads(img, ROOTINO + 1 + k, off, n);
    panic, entries := KernelReadsRoot(img, ROOTINO, 0, RootSizeFor(|files|));
    free := KernelBallocs(img);
  }

  /** With thirty empty files the root's entries fill a block exactly, and the image mkfs leaves has a hole in the root. */
  method RootHole() returns (img: Image)
    ensures img.Finished(ROOTINO) && |img.contents[ROOTINO]| == BSIZE
    ensures DinodeOk(DinodeOn(SB, img.Img(), ROOTINO))
    ensures var d := DinodeOn(SB, img.Img(), ROOTINO); !HoleFree(img.Img(), d.addrs, d.size)
  {
    var files := seq(30, _ => Source([], []));
    OnlyRoot(files);
    hide FsOk, Final, Blank, FilesBut, HoleFree, Plan, Entries, BlocksForAll;
    img := Mkfs(files);
  }

  lemma OnlyRoot(files: seq<Source>)
    requires |files| == 30 && forall k :: 0 <= k < |files| ==> files[k].chunks == []
    ensures NMETA + BlocksForAll(Plan(files)) <= FSSIZE && forall k :: 0 <= k < |files| ==> Flatten(files[k].chunks) == []
  {
    var none := NoContents(NINODES);
    hide Entries, BlocksForAll;
    assert Plan(files) == none[ROOTINO := Entries(files, 30)];
    NoBlocksYet(none);
    BlocksForOneMore(none, ROOTINO, Entries(files, 30));
  }

  function ZeroImage(n: nat): (r: seq<Block>)
    ensures |r| == n && forall i :: 0 <= i < n ==> r[i] == Zero()
  {
    if n == 0 then [] else ZeroImage(n - 1) + [Zero()]
  }

  function NoContents(n: nat): (r: seq<seq<Byte>>)
    ensures |r| == n && forall i :: 0 <= i < n ==> r[i] == []
  {
    if n == 0 then [] else NoContents(n - 1) + [[]]
  }

  lemma AppendFits(size: nat, n: nat)
    requires size + n <= MAXFILE * BSIZE
    ensures n > 0 ==> size / BSIZE < size / BSIZE + Touched(size, n) <= MAXFILE
    ensures n == 0 ==> Touched(size, n) == 0
  {
  }

  /** The heads of the inodes main makes: of the root, if it is made yet, and of the first k files. */
  function Heads(root: bool, k: nat): (r: seq<Dinode>)
    ensures |r| == NINODES
  {
    seq(NINODES, i =>
      if root && i == ROOTINO then NO_INODE.(typ := T_DIR, nlink := 1)
      else if ROOTINO < i <= ROOTINO + k then NO_INODE.(typ := T_FILE, nlink := 1)
      else NO_INODE)
  }

  /** The all-zero image mkfs starts from, with the bitmap of the metadata blocks, is a good empty disk. */
  lemma EmptyImageOk()
    ensures var f := Final(ZeroImage(FSSIZE), NMETA);
      Blank(ZeroImage(FSSIZE), NMETA) && FsOk(SB, f, map[]) && Files(f, NoContents(NINODES), 1)
      && Headed(f, Heads(false, 0))
  {
    SbGood();
    var z, none: map<nat, Slot> := ZeroImage(FSSIZE), map[];
    var f := Final(z, NMETA);
    hide Final, BitmapOf, OwnOk, FileIs, DinodeOn, Used;
    forall i: nat | i < NINODES
      ensures DinodeOn(SB, f, i) == NO_INODE && FileIs(f, NO_INODE, []) && OwnOk(f, none, i, NO_BLOCKS)
    {
      EmptyInode(i);
    }
    forall b: nat | b < FSSIZE
      ensures BitRight(SB, f, none, b)
    {
      FinalUsed(z, NMETA, b);
    }
  }

  lemma EmptyInode(i: nat)
    requires i < NINODES
    ensures var f := Final(ZeroImage(FSSIZE), NMETA);
      Disk(SB, f) && DinodeOn(SB, f, i) == NO_INODE && FileIs(f, NO_INODE, []) && OwnOk(f, map[], i, NO_BLOCKS)
  {
    hide Final, OwnOk, FileIs, SlotAddr;
    WinodeIsIupdate(ZeroImage(FSSIZE), NMETA, i, NO_INODE);
    ZeroInode(i % IPB);
    NoBlocksIsEmpty(Final(ZeroImage(FSSIZE), NMETA), NO_INODE);
    NoSlots(Final(ZeroImage(FSSIZE), NMETA), map[], i);
  }

  lemma NoSlots(blk: seq<Block>, none: map<nat, Slot>, i: nat)
    requires none == map[]
    ensures OwnOk(blk, none, i, NO_BLOCKS)
  {
    forall k: nat | k < NSLOTS
      ensures Holds(blk, none, i, NO_BLOCKS, k)
    {
      assert SlotAddr(blk, NO_BLOCKS, k) == 0;
    }
  }

  function BlockOf(off: nat): nat {
    off / BSIZE
  }

  /** After p of n bytes, done file blocks of the range are behind. */
  predicate AtBlock(size: nat, n: nat, p: nat, done: nat) {
    if p < n then BlockOf(size + p) == BlockOf(size) + done else done == Touched(size, n)
  }

  /** A pass of iappend's loop stays in its block and ends at a block boundary or at the end of the data. */
  lemma PassEnds(size: nat, n: nat, p: nat, n1: int, done: nat)
    requires p < n && AtBlock(size, n, p, done)
    requires n1 == Min(n - p, (BlockOf(size + p) + 1) * BSIZE - (size + p))
    ensures 1 <= n1 <= n - p && AtBlock(size, n, p + n1, done + 1) && done < Touched(size, n)
    ensures BlockOf(size + p) == BlockOf(size) + done
    ensures var at := size + p - BlockOf(size + p) * BSIZE; 0 <= at < BSIZE && at + n1 <= BSIZE
  {
  }

  lemma NoBlocksIsEmpty(blk: seq<Block>, d: Dinode)
    requires d.addrs == NO_BLOCKS && d.size == 0
    ensures FileIs(blk, d, [])
  {
    forall k: nat | k < NSLOTS
      ensures SlotAddr(blk, d.addrs, k) == 0
    {
    }
    forall bn: nat | bn < MAXFILE
      ensures FileBlock(blk, d.addrs, bn) == 0
    {
      assert SlotOf(bn) < NSLOTS;
    }
  }
}
