/** Block ownership and file contents on a disk image: what balloc, bfree, bmap, itrunc, readi and
  * writei of fs.c, and iappend of mkfs.c, keep true.
  *
  * The image is the logical disk (pinned buffers over the disk proper, see LogRecovery.Logical).
  */
module FsModel {
  import opened Param
  import opened FsFormat

  /** The superblock fields the allocator and the inode layer use. */
  datatype Super = Super(size: nat, nblocks: nat, ninodes: nat, inodestart: nat, bmapstart: nat)

  /** Blocks before the data area: boot, super, log, inodes, bitmap. */
  function NMeta(sb: Super): int {
    sb.size - sb.nblocks
  }

  predicate GoodSb(sb: Super) {
    && sb.nblocks <= sb.size < U32 / 2
    && 2 <= sb.inodestart && sb.inodestart + sb.ninodes / IPB + 1 <= sb.bmapstart
    && sb.bmapstart + sb.size / BPB + 1 <= NMeta(sb)
  }

  predicate Disk(sb: Super, blk: seq<Block>) {
    GoodSb(sb) && |blk| == sb.size
  }

  function IBlock(sb: Super, inum: nat): nat {
    inum / IPB + sb.inodestart
  }

  function BBlock(sb: Super, b: nat): nat {
    b / BPB + sb.bmapstart
  }

  function DinodeOn(sb: Super, blk: seq<Block>, inum: nat): (d: Dinode)
    requires Disk(sb, blk) && inum < sb.ninodes
    ensures DinodeOk(d)
  {
    DinodeIn(blk[IBlock(sb, inum)], inum % IPB)
  }

  predicate Used(sb: Super, blk: seq<Block>, b: nat)
    requires Disk(sb, blk) && b < sb.size
  {
    Bit(blk[BBlock(sb, b)], b % BPB)
  }

  // ----- who owns a block

  /** Slot k of an inode: 0..11 direct, 12 the indirect block itself, 13..140 its entries. */
  datatype Slot = Slot(inum: nat, k: nat)

  const NSLOTS: nat := NDIRECT + 1 + NINDIRECT

  /** The slot that holds file block bn. */
  function SlotOf(bn: nat): nat {
    if bn < NDIRECT then bn else bn + 1
  }

  /** The block number in slot k, 0 if there is none. */
  function SlotAddr(blk: seq<Block>, addrs: seq<Word>, k: nat): Word
    requires |addrs| == NDIRECT + 1 && k < NSLOTS
  {
    if k <= NDIRECT then addrs[k]
    else if 0 < addrs[NDIRECT] < |blk| then WordAt(blk[addrs[NDIRECT]], k - NDIRECT - 1)
    else 0
  }

  predicate Holds(blk: seq<Block>, owner: map<nat, Slot>, inum: nat, addrs: seq<Word>, k: nat)
    requires |addrs| == NDIRECT + 1 && k < NSLOTS
  {
    var a := SlotAddr(blk, addrs, k);
    a != 0 ==> a in owner && owner[a] == Slot(inum, k)
  }

  predicate HeldBy(blk: seq<Block>, s: Slot, inum: nat, addrs: seq<Word>, a: nat)
    requires |addrs| == NDIRECT + 1
  {
    s.inum == inum ==> s.k < NSLOTS && SlotAddr(blk, addrs, s.k) == a
  }

  /** The inode's slots and the blocks recorded as its own correspond one to one. */
  ghost predicate OwnOk(blk: seq<Block>, owner: map<nat, Slot>, inum: nat, addrs: seq<Word>) {
    && |addrs| == NDIRECT + 1
    && (forall k :: 0 <= k < NSLOTS ==> Holds(blk, owner, inum, addrs, k))
    && (forall a :: a in owner ==> HeldBy(blk, owner[a], inum, addrs, a))
  }

  predicate BitRight(sb: Super, blk: seq<Block>, owner: map<nat, Slot>, b: nat)
    requires Disk(sb, blk) && b < sb.size
  {
    Used(sb, blk, b) <==> b < NMeta(sb) || b in owner
  }

  /** A bitmap bit is set exactly for metadata blocks and owned blocks, and only data blocks are owned. */
  ghost predicate BitmapOk(sb: Super, blk: seq<Block>, owner: map<nat, Slot>)
  {
    && Disk(sb, blk)
    && (forall a :: a in owner ==> NMeta(sb) <= a < sb.size)
    && (forall b :: 0 <= b < sb.size ==> BitRight(sb, blk, owner, b))
  }

  /** The state between operations: the bitmap and every inode on disk agree with the owners. */
  ghost predicate FsOk(sb: Super, blk: seq<Block>, owner: map<nat, Slot>) {
    && BitmapOk(sb, blk, owner)
    && (forall a :: a in owner ==> owner[a].inum < sb.ninodes)
    && (forall i :: 0 <= i < sb.ninodes ==> OwnOk(blk, owner, i, DinodeOn(sb, blk, i).addrs))
  }

  /** In every good state a data block is in at most one slot of one inode. */
  lemma OneOwner(sb: Super, blk: seq<Block>, owner: map<nat, Slot>, i: nat, k: nat, i': nat, k': nat)
    requires FsOk(sb, blk, owner) && i < sb.ninodes && i' < sb.ninodes && k < NSLOTS && k' < NSLOTS
    requires SlotAddr(blk, DinodeOn(sb, blk, i).addrs, k) == SlotAddr(blk, DinodeOn(sb, blk, i').addrs, k') != 0
    ensures i == i' && k == k'
    ensures var a := SlotAddr(blk, DinodeOn(sb, blk, i).addrs, k); NMeta(sb) <= a < sb.size && Used(sb, blk, a)
  {
    assert Holds(blk, owner, i, DinodeOn(sb, blk, i).addrs, k);
    assert Holds(blk, owner, i', DinodeOn(sb, blk, i').addrs, k');
    assert BitRight(sb, blk, owner, SlotAddr(blk, DinodeOn(sb, blk, i).addrs, k));
  }

  // ----- file contents

  function FileBlock(blk: seq<Block>, addrs: seq<Word>, bn: nat): Word
    requires |addrs| == NDIRECT + 1 && bn < MAXFILE
  {
    SlotAddr(blk, addrs, SlotOf(bn))
  }

  /** Byte x of the file; a block that is not there yet reads as zeros. */
  function ByteAt(blk: seq<Block>, addrs: seq<Word>, x: nat): Byte
    requires |addrs| == NDIRECT + 1 && x < MAXFILE * BSIZE
  {
    var a := FileBlock(blk, addrs, x / BSIZE);
    if 0 < a < |blk| then blk[a].bytes[x % BSIZE] else 0
  }

  function Bytes(blk: seq<Block>, addrs: seq<Word>, lo: nat, hi: nat): (r: seq<Byte>)
    requires |addrs| == NDIRECT + 1 && lo <= hi <= MAXFILE * BSIZE
    ensures |r| == hi - lo && forall i :: 0 <= i < hi - lo ==> r[i] == ByteAt(blk, addrs, lo + i)
    decreases hi - lo
  {
    if lo == hi then [] else Bytes(blk, addrs, lo, hi - 1) + [ByteAt(blk, addrs, hi - 1)]
  }

  /** Every block below the file's size is there. */
  predicate HoleFree(blk: seq<Block>, addrs: seq<Word>, size: nat)
    requires |addrs| == NDIRECT + 1
  {
    size <= MAXFILE * BSIZE && forall bn :: 0 <= bn < MAXFILE && bn * BSIZE < size ==> FileBlock(blk, addrs, bn) != 0
  }

  ghost predicate SameBytes(blk: seq<Block>, addrs: seq<Word>, blk': seq<Block>, addrs': seq<Word>)
    requires |addrs| == NDIRECT + 1 && |addrs'| == NDIRECT + 1
  {
    forall x :: 0 <= x < MAXFILE * BSIZE ==> ByteAt(blk', addrs', x) == ByteAt(blk, addrs, x)
  }

  // ----- balloc and bfree on the image

  function Balloced(sb: Super, blk: seq<Block>, a: nat): (r: seq<Block>)
    requires Disk(sb, blk) && a < sb.size
    ensures |r| == |blk|
  {
    var bm := BBlock(sb, a);
    var marked: Block := SetBit(blk[bm], a % BPB);
    blk[bm := marked][a := Zero()]
  }

  function Bfreed(sb: Super, blk: seq<Block>, a: nat): (r: seq<Block>)
    requires Disk(sb, blk) && a < sb.size
    ensures |r| == |blk|
  {
    var bm := BBlock(sb, a);
    var cleared: Block := ClearBit(blk[bm], a % BPB);
    blk[bm := cleared]
  }

  lemma BitmapBlock(sb: Super, b: nat)
    requires GoodSb(sb) && b < sb.size
    ensures sb.bmapstart <= BBlock(sb, b) < NMeta(sb)
  {
  }

  /** A free block is an unowned data block; allocating it sets its bit and no other. */
  lemma BallocKeepsBitmap(sb: Super, blk: seq<Block>, owner: map<nat, Slot>, a: nat, s: Slot)
    requires BitmapOk(sb, blk, owner) && a < sb.size && !Used(sb, blk, a)
    ensures NMeta(sb) <= a && a !in owner
    ensures BitmapOk(sb, Balloced(sb, blk, a), owner[a := s])
  {
    assert BitRight(sb, blk, owner, a);
    BitmapBlock(sb, a);
    var r, owner' := Balloced(sb, blk, a), owner[a := s];
    forall b: nat | b < sb.size
      ensures BitRight(sb, r, owner', b)
    {
      assert BitRight(sb, blk, owner, b);
      BitmapBlock(sb, b);
      if BBlock(sb, b) == BBlock(sb, a) {
        BitOfSet(blk[BBlock(sb, a)], a % BPB, b % BPB);
      }
    }
  }

  lemma BfreeKeepsBitmap(sb: Super, blk: seq<Block>, owner: map<nat, Slot>, a: nat)
    requires BitmapOk(sb, blk, owner) && a in owner
    ensures Used(sb, blk, a) && BitmapOk(sb, Bfreed(sb, blk, a), owner - {a})
  {
    assert BitRight(sb, blk, owner, a);
    BitmapBlock(sb, a);
    var r, owner' := Bfreed(sb, blk, a), owner - {a};
    forall b: nat | b < sb.size
      ensures BitRight(sb, r, owner', b)
    {
      assert BitRight(sb, blk, owner, b);
      BitmapBlock(sb, b);
      if BBlock(sb, b) == BBlock(sb, a) {
        BitOfClear(blk[BBlock(sb, a)], a % BPB, b % BPB);
      }
    }
  }

  // ----- giving an inode a new block

  function GrownAddrs(addrs: seq<Word>, k: nat, a: Word): (r: seq<Word>)
    requires |addrs| == NDIRECT + 1
    ensures |r| == NDIRECT + 1
  {
    if k <= NDIRECT then addrs[k := a] else addrs
  }

  /** The image after block a is allocated and entered in slot k. */
  function Grown(sb: Super, blk: seq<Block>, addrs: seq<Word>, k: nat, a: Word): (r: seq<Block>)
    requires Disk(sb, blk) && a < sb.size && |addrs| == NDIRECT + 1 && k < NSLOTS
    requires k > NDIRECT ==> addrs[NDIRECT] < sb.size
    ensures |r| == |blk|
  {
    var b := Balloced(sb, blk, a);
    var i := addrs[NDIRECT];
    if k <= NDIRECT then b
    else
      var entered: Block := PutWord(b[i], k - NDIRECT - 1, a);
      b[i := entered]
  }

  /** Slot k is empty, its indirect block (if it needs one) is there, and a is a free block. */
  ghost predicate CanGrow(sb: Super, blk: seq<Block>, owner: map<nat, Slot>, inum: nat, addrs: seq<Word>, k: nat, a: nat) {
    && BitmapOk(sb, blk, owner) && OwnOk(blk, owner, inum, addrs) && k < NSLOTS
    && a < sb.size && !Used(sb, blk, a) && SlotAddr(blk, addrs, k) == 0
    && (k > NDIRECT ==> addrs[NDIRECT] != 0)
  }

  /** The block in a nonempty slot is an allocated data block, in no other slot. */
  lemma SlotOwned(sb: Super, blk: seq<Block>, owner: map<nat, Slot>, inum: nat, addrs: seq<Word>, k: nat)
    requires BitmapOk(sb, blk, owner) && OwnOk(blk, owner, inum, addrs) && k < NSLOTS
    requires SlotAddr(blk, addrs, k) != 0
    ensures var a := SlotAddr(blk, addrs, k);
      NMeta(sb) <= a < sb.size && a in owner && owner[a] == Slot(inum, k) && Used(sb, blk, a)
  {
    assert Holds(blk, owner, inum, addrs, k);
    assert BitRight(sb, blk, owner, SlotAddr(blk, addrs, k));
  }

  lemma FreeUnowned(sb: Super, blk: seq<Block>, owner: map<nat, Slot>, a: nat)
    requires BitmapOk(sb, blk, owner) && a < sb.size && !Used(sb, blk, a)
    ensures NMeta(sb) <= a && a !in owner
  {
    assert BitRight(sb, blk, owner, a);
  }

  /** Only the bitmap block, block a, and for an entry the indirect block change. */
  lemma GrownElsewhere(sb: Super, blk: seq<Block>, owner: map<nat, Slot>, inum: nat, addrs: seq<Word>, k: nat, a: nat, x: nat)
    requires CanGrow(sb, blk, owner, inum, addrs, k, a) && x < sb.size
    ensures k > NDIRECT ==> addrs[NDIRECT] < sb.size
    ensures x != BBlock(sb, a) && x != a && (k > NDIRECT ==> x != addrs[NDIRECT]) ==>
      Grown(sb, blk, addrs, k, a)[x] == blk[x]
    ensures Grown(sb, blk, addrs, k, a)[a] == Zero()
    ensures k > NDIRECT ==>
      Grown(sb, blk, addrs, k, a)[addrs[NDIRECT]] == PutWord(blk[addrs[NDIRECT]], k - NDIRECT - 1, a)
  {
    FreeUnowned(sb, blk, owner, a);
    BitmapBlock(sb, a);
    if k > NDIRECT {
      SlotOwned(sb, blk, owner, inum, addrs, NDIRECT);
    }
  }

  lemma GrownSlot(sb: Super, blk: seq<Block>, owner: map<nat, Slot>, inum: nat, addrs: seq<Word>, k: nat, a: nat, j: nat)
    requires CanGrow(sb, blk, owner, inum, addrs, k, a) && j < NSLOTS
    requires k > NDIRECT ==> addrs[NDIRECT] < sb.size
    ensures SlotAddr(Grown(sb, blk, addrs, k, a), GrownAddrs(addrs, k, a), j)
      == if j == k then a else SlotAddr(blk, addrs, j)
  {
    FreeUnowned(sb, blk, owner, a);
    if j > NDIRECT {
      if k == NDIRECT {
        GrownElsewhere(sb, blk, owner, inum, addrs, k, a, a);
        ZeroWord(j - NDIRECT - 1);
      } else if addrs[NDIRECT] != 0 {
        var i := addrs[NDIRECT];
        SlotOwned(sb, blk, owner, inum, addrs, NDIRECT);
        BitmapBlock(sb, a);
        GrownElsewhere(sb, blk, owner, inum, addrs, k, a, i);
        if k > NDIRECT {
          WordOfPut(blk[i], k - NDIRECT - 1, a, j - NDIRECT - 1);
        }
      }
    }
  }

  lemma PatchKeepsBitmap(sb: Super, blk: seq<Block>, owner: map<nat, Slot>, x: nat, b: Block)
    requires BitmapOk(sb, blk, owner) && NMeta(sb) <= x < sb.size
    ensures BitmapOk(sb, blk[x := b], owner)
  {
    var r := blk[x := b];
    forall c: nat | c < sb.size
      ensures BitRight(sb, r, owner, c)
    {
      assert BitRight(sb, blk, owner, c);
      BitmapBlock(sb, c);
    }
  }

  lemma GrowKeepsBitmap(sb: Super, blk: seq<Block>, owner: map<nat, Slot>, inum: nat, addrs: seq<Word>, k: nat, a: nat)
    requires CanGrow(sb, blk, owner, inum, addrs, k, a)
    requires k > NDIRECT ==> addrs[NDIRECT] < sb.size
    ensures BitmapOk(sb, Grown(sb, blk, addrs, k, a), owner[a := Slot(inum, k)])
  {
    BallocKeepsBitmap(sb, blk, owner, a, Slot(inum, k));
    if k > NDIRECT {
      SlotOwned(sb, blk, owner, inum, addrs, NDIRECT);
      var b, i := Balloced(sb, blk, a), addrs[NDIRECT];
      PatchKeepsBitmap(sb, b, owner[a := Slot(inum, k)], i, PutWord(b[i], k - NDIRECT - 1, a));
    }
  }

  lemma GrowHolds(sb: Super, blk: seq<Block>, owner: map<nat, Slot>, inum: nat, addrs: seq<Word>, k: nat, a: nat, j: nat)
    requires CanGrow(sb, blk, owner, inum, addrs, k, a) && j < NSLOTS && a !in owner
    requires k > NDIRECT ==> addrs[NDIRECT] < sb.size
    ensures Holds(Grown(sb, blk, addrs, k, a), owner[a := Slot(inum, k)], inum, GrownAddrs(addrs, k, a), j)
  {
    GrownSlot(sb, blk, owner, inum, addrs, k, a, j);
    assert Holds(blk, owner, inum, addrs, j);
  }

  lemma GrowHeld(sb: Super, blk: seq<Block>, owner: map<nat, Slot>, inum: nat, addrs: seq<Word>, k: nat, a: nat, x: nat)
    requires CanGrow(sb, blk, owner, inum, addrs, k, a) && a !in owner && (x == a || x in owner)
    requires k > NDIRECT ==> addrs[NDIRECT] < sb.size
    ensures HeldBy(Grown(sb, blk, addrs, k, a), owner[a := Slot(inum, k)][x], inum, GrownAddrs(addrs, k, a), x)
  {
    if x == a {
      GrownSlot(sb, blk, owner, inum, addrs, k, a, k);
    } else {
      assert HeldBy(blk, owner[x], inum, addrs, x);
      if owner[x].inum == inum {
        GrownSlot(sb, blk, owner, inum, addrs, k, a, owner[x].k);
      }
    }
  }

  /** Allocating a block for an empty slot keeps ownership exact: the slot and no other gains it. */
  lemma GrowKeepsOwners(sb: Super, blk: seq<Block>, owner: map<nat, Slot>, inum: nat, addrs: seq<Word>, k: nat, a: nat)
    requires CanGrow(sb, blk, owner, inum, addrs, k, a)
    ensures k > NDIRECT ==> addrs[NDIRECT] < sb.size
    ensures a !in owner && a != 0
    ensures OwnOk(Grown(sb, blk, addrs, k, a), owner[a := Slot(inum, k)], inum, GrownAddrs(addrs, k, a))
    ensures BitmapOk(sb, Grown(sb, blk, addrs, k, a), owner[a := Slot(inum, k)])
  {
    FreeUnowned(sb, blk, owner, a);
    if k > NDIRECT {
      SlotOwned(sb, blk, owner, inum, addrs, NDIRECT);
    }
    GrowKeepsBitmap(sb, blk, owner, inum, addrs, k, a);
    var blk', addrs', owner' := Grown(sb, blk, addrs, k, a), GrownAddrs(addrs, k, a), owner[a := Slot(inum, k)];
    hide BitmapOk, Grown, GrownAddrs, SlotAddr, Holds, HeldBy, CanGrow;
    forall j: nat | j < NSLOTS
      ensures Holds(blk', owner', inum, addrs', j)
    {
      GrowHolds(sb, blk, owner, inum, addrs, k, a, j);
    }
    forall x | x in owner'
      ensures HeldBy(blk', owner'[x], inum, addrs', x)
    {
      GrowHeld(sb, blk, owner, inum, addrs, k, a, x);
    }
  }

  /** A data slot's block is neither the bitmap block, nor the new block, nor the indirect block. */
  lemma GrowKeepsBytes(sb: Super, blk: seq<Block>, owner: map<nat, Slot>, inum: nat, addrs: seq<Word>, k: nat, a: nat)
    requires CanGrow(sb, blk, owner, inum, addrs, k, a)
    requires k > NDIRECT ==> addrs[NDIRECT] < sb.size
    ensures SameBytes(blk, addrs, Grown(sb, blk, addrs, k, a), GrownAddrs(addrs, k, a))
  {
    FreeUnowned(sb, blk, owner, a);
    var blk', addrs' := Grown(sb, blk, addrs, k, a), GrownAddrs(addrs, k, a);
    forall x: nat | x < MAXFILE * BSIZE
      ensures ByteAt(blk', addrs', x) == ByteAt(blk, addrs, x)
    {
      GrowKeepsByte(sb, blk, owner, inum, addrs, k, a, x);
    }
  }

  lemma GrowKeepsByte(sb: Super, blk: seq<Block>, owner: map<nat, Slot>, inum: nat, addrs: seq<Word>, k: nat, a: nat, x: nat)
    requires CanGrow(sb, blk, owner, inum, addrs, k, a) && x < MAXFILE * BSIZE
    requires k > NDIRECT ==> addrs[NDIRECT] < sb.size
    ensures ByteAt(Grown(sb, blk, addrs, k, a), GrownAddrs(addrs, k, a), x) == ByteAt(blk, addrs, x)
  {
    var j := SlotOf(x / BSIZE);
    GrownSlot(sb, blk, owner, inum, addrs, k, a, j);
    FreeUnowned(sb, blk, owner, a);
    GrownElsewhere(sb, blk, owner, inum, addrs, k, a, a);
    var c := SlotAddr(blk, addrs, j);
    if j != k && c != 0 {
      SlotOwned(sb, blk, owner, inum, addrs, j);
      BitmapBlock(sb, a);
      if k > NDIRECT {
        SlotOwned(sb, blk, owner, inum, addrs, NDIRECT);
      }
      GrownElsewhere(sb, blk, owner, inum, addrs, k, a, c);
    }
  }

  // ----- what an operation on one inode leaves alone

  predicate SameOwner(owner: map<nat, Slot>, owner': map<nat, Slot>, inum: nat, a: nat)
  {
    && (a in owner && owner[a].inum != inum ==> a in owner' && owner'[a] == owner[a])
    && (a in owner' && owner'[a].inum != inum ==> a in owner && owner[a] == owner'[a])
  }

  /** The blocks of every other inode, and the blocks before the bitmap, are as they were. */
  ghost predicate OthersSame(sb: Super, blk: seq<Block>, owner: map<nat, Slot>, blk': seq<Block>, owner': map<nat, Slot>, inum: nat)
  {
    && |blk'| == |blk| == sb.size
    && (forall a: nat :: SameOwner(owner, owner', inum, a))
    && (forall a :: 0 <= a < sb.size && a in owner && owner[a].inum != inum ==> blk'[a] == blk[a])
    && (forall a :: 0 <= a < sb.bmapstart && a < sb.size ==> blk'[a] == blk[a])
  }

  lemma OthersTrans(sb: Super, blk: seq<Block>, owner: map<nat, Slot>, blk1: seq<Block>, owner1: map<nat, Slot>,
                    blk2: seq<Block>, owner2: map<nat, Slot>, inum: nat)
    requires OthersSame(sb, blk, owner, blk1, owner1, inum) && OthersSame(sb, blk1, owner1, blk2, owner2, inum)
    ensures OthersSame(sb, blk, owner, blk2, owner2, inum)
  {
    forall a: nat
      ensures SameOwner(owner, owner2, inum, a)
      ensures a < sb.size && a in owner && owner[a].inum != inum ==> blk2[a] == blk[a]
    {
      assert SameOwner(owner, owner1, inum, a) && SameOwner(owner1, owner2, inum, a);
    }
  }

  lemma GrowLeavesOthers(sb: Super, blk: seq<Block>, owner: map<nat, Slot>, inum: nat, addrs: seq<Word>, k: nat, a: nat)
    requires CanGrow(sb, blk, owner, inum, addrs, k, a)
    requires k > NDIRECT ==> addrs[NDIRECT] < sb.size
    ensures OthersSame(sb, blk, owner, Grown(sb, blk, addrs, k, a), owner[a := Slot(inum, k)], inum)
  {
    FreeUnowned(sb, blk, owner, a);
    BitmapBlock(sb, a);
    if k > NDIRECT {
      SlotOwned(sb, blk, owner, inum, addrs, NDIRECT);
    }
    var blk' := Grown(sb, blk, addrs, k, a);
    forall x: nat | x < sb.size && ((x in owner && owner[x].inum != inum) || x < sb.bmapstart)
      ensures blk'[x] == blk[x]
    {
      GrownElsewhere(sb, blk, owner, inum, addrs, k, a, x);
    }
  }

  /** Another inode keeps exactly its blocks and its contents. */
  lemma OthersKeep(sb: Super, blk: seq<Block>, owner: map<nat, Slot>, blk': seq<Block>, owner': map<nat, Slot>,
                   inum: nat, i: nat, addrs: seq<Word>)
    requires BitmapOk(sb, blk, owner) && OthersSame(sb, blk, owner, blk', owner', inum) && i != inum
    requires OwnOk(blk, owner, i, addrs)
    ensures OwnOk(blk', owner', i, addrs) && SameBytes(blk, addrs, blk', addrs)
  {
    forall k: nat | k < NSLOTS
      ensures SlotAddr(blk', addrs, k) == SlotAddr(blk, addrs, k)
    {
      if k > NDIRECT && addrs[NDIRECT] != 0 {
        SlotOwned(sb, blk, owner, i, addrs, NDIRECT);
      }
    }
    forall k: nat | k < NSLOTS
      ensures Holds(blk', owner', i, addrs, k)
    {
      assert Holds(blk, owner, i, addrs, k);
      assert SameOwner(owner, owner', inum, SlotAddr(blk, addrs, k));
    }
    forall a | a in owner'
      ensures HeldBy(blk', owner'[a], i, addrs, a)
    {
      assert SameOwner(owner, owner', inum, a);
      assert a in owner ==> HeldBy(blk, owner[a], i, addrs, a);
    }
    forall x: nat | x < MAXFILE * BSIZE
      ensures ByteAt(blk', addrs, x) == ByteAt(blk, addrs, x)
    {
      if FileBlock(blk, addrs, x / BSIZE) != 0 {
        SlotOwned(sb, blk, owner, i, addrs, SlotOf(x / BSIZE));
      }
    }
  }

  // ----- writing a data block

  lemma PatchKeepsSlot(sb: Super, blk: seq<Block>, owner: map<nat, Slot>, inum: nat, addrs: seq<Word>, bn: nat, b: Block, k: nat)
    requires BitmapOk(sb, blk, owner) && OwnOk(blk, owner, inum, addrs) && bn < MAXFILE && k < NSLOTS
    requires FileBlock(blk, addrs, bn) != 0
    ensures FileBlock(blk, addrs, bn) < sb.size
    ensures SlotAddr(blk[FileBlock(blk, addrs, bn) := b], addrs, k) == SlotAddr(blk, addrs, k)
  {
    SlotOwned(sb, blk, owner, inum, addrs, SlotOf(bn));
    if k > NDIRECT && addrs[NDIRECT] != 0 {
      SlotOwned(sb, blk, owner, inum, addrs, NDIRECT);
    }
  }

  /** Unchanged slots and owners: ownership carries over to the new image. */
  lemma SameSlotsOwnOk(blk: seq<Block>, blk': seq<Block>, owner: map<nat, Slot>, inum: nat, addrs: seq<Word>)
    requires OwnOk(blk, owner, inum, addrs)
    requires forall k :: 0 <= k < NSLOTS ==> SlotAddr(blk', addrs, k) == SlotAddr(blk, addrs, k)
    ensures OwnOk(blk', owner, inum, addrs)
  {
    forall k: nat | k < NSLOTS
      ensures Holds(blk', owner, inum, addrs, k)
    {
      assert Holds(blk, owner, inum, addrs, k);
    }
    forall a | a in owner
      ensures HeldBy(blk', owner[a], inum, addrs, a)
    {
      assert HeldBy(blk, owner[a], inum, addrs, a);
    }
  }

  lemma PatchLeavesOthers(sb: Super, blk: seq<Block>, owner: map<nat, Slot>, inum: nat, r: nat, b: Block)
    requires Disk(sb, blk) && NMeta(sb) <= r < sb.size && r in owner && owner[r].inum == inum
    ensures OthersSame(sb, blk, owner, blk[r := b], owner, inum)
  {
  }

  /** Rewriting one data block of an inode keeps every slot, every owner and every other inode. */
  lemma PatchKeepsOwners(sb: Super, blk: seq<Block>, owner: map<nat, Slot>, inum: nat, addrs: seq<Word>, bn: nat, b: Block)
    requires BitmapOk(sb, blk, owner) && OwnOk(blk, owner, inum, addrs) && bn < MAXFILE
    requires FileBlock(blk, addrs, bn) != 0
    ensures var r := FileBlock(blk, addrs, bn);
      && NMeta(sb) <= r < sb.size
      && BitmapOk(sb, blk[r := b], owner) && OwnOk(blk[r := b], owner, inum, addrs)
      && OthersSame(sb, blk, owner, blk[r := b], owner, inum)
  {
    SlotOwned(sb, blk, owner, inum, addrs, SlotOf(bn));
    var r := FileBlock(blk, addrs, bn);
    PatchKeepsBitmap(sb, blk, owner, r, b);
    forall k: nat | k < NSLOTS
      ensures SlotAddr(blk[r := b], addrs, k) == SlotAddr(blk, addrs, k)
    {
      PatchKeepsSlot(sb, blk, owner, inum, addrs, bn, b, k);
    }
    hide SlotAddr, FileBlock, BitmapOk, OthersSame;
    SameSlotsOwnOk(blk, blk[r := b], owner, inum, addrs);
    PatchLeavesOthers(sb, blk, owner, inum, r, b);
  }

  lemma PatchedByte(sb: Super, blk: seq<Block>, owner: map<nat, Slot>, inum: nat, addrs: seq<Word>, bn: nat, b: Block, x: nat)
    requires BitmapOk(sb, blk, owner) && OwnOk(blk, owner, inum, addrs) && bn < MAXFILE && x < MAXFILE * BSIZE
    requires FileBlock(blk, addrs, bn) != 0
    ensures FileBlock(blk, addrs, bn) < sb.size
    ensures ByteAt(blk[FileBlock(blk, addrs, bn) := b], addrs, x)
      == if x / BSIZE == bn then b.bytes[x % BSIZE] else ByteAt(blk, addrs, x)
  {
    PatchKeepsSlot(sb, blk, owner, inum, addrs, bn, b, SlotOf(x / BSIZE));
    SlotOwned(sb, blk, owner, inum, addrs, SlotOf(bn));
    if x / BSIZE != bn && FileBlock(blk, addrs, x / BSIZE) != 0 {
      SlotOwned(sb, blk, owner, inum, addrs, SlotOf(x / BSIZE));
    }
  }

  // ----- iupdate

  function Iupdated(sb: Super, blk: seq<Block>, inum: nat, d: Dinode): (r: seq<Block>)
    requires Disk(sb, blk) && inum < sb.ninodes && DinodeOk(d)
    ensures |r| == |blk|
  {
    var b := IBlock(sb, inum);
    var put: Block := PutDinode(blk[b], inum % IPB, d);
    blk[b := put]
  }

  lemma IupdatedDinode(sb: Super, blk: seq<Block>, inum: nat, d: Dinode, i: nat)
    requires Disk(sb, blk) && inum < sb.ninodes && DinodeOk(d) && i < sb.ninodes
    ensures DinodeOn(sb, Iupdated(sb, blk, inum, d), i) == if i == inum then d else DinodeOn(sb, blk, i)
  {
    hide PutDinode, DinodeIn;
    if IBlock(sb, i) == IBlock(sb, inum) {
      assert i % IPB == inum % IPB <==> i == inum;
      DinodeOfPut(blk[IBlock(sb, inum)], inum % IPB, d, i % IPB);
    }
  }

  lemma IupdateKeepsBit(sb: Super, blk: seq<Block>, owner: map<nat, Slot>, inum: nat, d: Dinode, c: nat)
    requires BitmapOk(sb, blk, owner) && inum < sb.ninodes && DinodeOk(d) && c < sb.size
    ensures BitRight(sb, Iupdated(sb, blk, inum, d), owner, c)
  {
    assert BitRight(sb, blk, owner, c);
    BitmapBlock(sb, c);
    assert IBlock(sb, inum) < sb.bmapstart;
    assert Iupdated(sb, blk, inum, d)[BBlock(sb, c)] == blk[BBlock(sb, c)];
    hide Iupdated, BBlock, IBlock, Bit;
  }

  lemma IupdateKeepsBitmap(sb: Super, blk: seq<Block>, owner: map<nat, Slot>, inum: nat, d: Dinode)
    requires BitmapOk(sb, blk, owner) && inum < sb.ninodes && DinodeOk(d)
    ensures BitmapOk(sb, Iupdated(sb, blk, inum, d), owner)
  {
    var r := Iupdated(sb, blk, inum, d);
    forall c: nat | c < sb.size
      ensures BitRight(sb, r, owner, c)
    {
      IupdateKeepsBit(sb, blk, owner, inum, d, c);
    }
    hide Iupdated, BitRight;
  }

  ghost predicate DataSame(sb: Super, blk: seq<Block>, blk': seq<Block>) {
    |blk| == |blk'| == sb.size && forall x :: 0 <= x < sb.size && NMeta(sb) <= x ==> blk'[x] == blk[x]
  }

  lemma IupdatedElsewhere(sb: Super, blk: seq<Block>, inum: nat, d: Dinode)
    requires Disk(sb, blk) && inum < sb.ninodes && DinodeOk(d)
    ensures DataSame(sb, blk, Iupdated(sb, blk, inum, d))
  {
  }

  /** With the data blocks unchanged, slots and contents are unchanged. */
  lemma DataSameKeeps(sb: Super, blk: seq<Block>, blk': seq<Block>, owner: map<nat, Slot>, i: nat, addrs: seq<Word>)
    requires BitmapOk(sb, blk, owner) && OwnOk(blk, owner, i, addrs) && DataSame(sb, blk, blk')
    ensures OwnOk(blk', owner, i, addrs) && SameBytes(blk, addrs, blk', addrs)
  {
    forall k: nat | k < NSLOTS
      ensures SlotAddr(blk', addrs, k) == SlotAddr(blk, addrs, k)
    {
      if k > NDIRECT && addrs[NDIRECT] != 0 {
        SlotOwned(sb, blk, owner, i, addrs, NDIRECT);
      }
    }
    SameSlotsOwnOk(blk, blk', owner, i, addrs);
    forall x: nat | x < MAXFILE * BSIZE
      ensures ByteAt(blk', addrs, x) == ByteAt(blk, addrs, x)
    {
      if FileBlock(blk, addrs, x / BSIZE) != 0 {
        SlotOwned(sb, blk, owner, i, addrs, SlotOf(x / BSIZE));
      }
    }
  }

  lemma IupdateKeepsSlots(sb: Super, blk: seq<Block>, owner: map<nat, Slot>, inum: nat, d: Dinode, i: nat, addrs: seq<Word>)
    requires BitmapOk(sb, blk, owner) && inum < sb.ninodes && DinodeOk(d) && OwnOk(blk, owner, i, addrs)
    ensures OwnOk(Iupdated(sb, blk, inum, d), owner, i, addrs)
    ensures SameBytes(blk, addrs, Iupdated(sb, blk, inum, d), addrs)
  {
    hide Iupdated, SameBytes, DataSame;
    IupdatedElsewhere(sb, blk, inum, d);
    DataSameKeeps(sb, blk, Iupdated(sb, blk, inum, d), owner, i, addrs);
  }

  lemma SameBytesTrans(b0: seq<Block>, a0: seq<Word>, b1: seq<Block>, a1: seq<Word>, b2: seq<Block>, a2: seq<Word>)
    requires |a0| == |a1| == |a2| == NDIRECT + 1
    requires SameBytes(b0, a0, b1, a1) && SameBytes(b1, a1, b2, a2)
    ensures SameBytes(b0, a0, b2, a2)
  {
    forall x: nat | x < MAXFILE * BSIZE
      ensures ByteAt(b2, a2, x) == ByteAt(b0, a0, x)
    {
      assert ByteAt(b1, a1, x) == ByteAt(b0, a0, x);
    }
  }

  /** Every inode but inum is on disk as before, with the same contents. */
  ghost predicate OtherFilesSame(sb: Super, blk: seq<Block>, blk': seq<Block>, inum: nat)
  {
    && Disk(sb, blk) && Disk(sb, blk')
    && forall i :: 0 <= i < sb.ninodes && i != inum ==>
      && DinodeOn(sb, blk', i) == DinodeOn(sb, blk, i)
      && SameBytes(blk, DinodeOn(sb, blk, i).addrs, blk', DinodeOn(sb, blk, i).addrs)
  }

  /** An operation that kept ownership and left the other inodes alone ends, once the inode is
    * written back, in a good state in which every other file is intact.
    */
  lemma WriteBackRestores(sb: Super, blk: seq<Block>, owner: map<nat, Slot>, blk': seq<Block>, owner': map<nat, Slot>,
                          inum: nat, d: Dinode)
    requires FsOk(sb, blk, owner) && inum < sb.ninodes && DinodeOk(d)
    requires OthersSame(sb, blk, owner, blk', owner', inum) && BitmapOk(sb, blk', owner')
    requires OwnOk(blk', owner', inum, d.addrs)
    ensures FsOk(sb, Iupdated(sb, blk', inum, d), owner')
    ensures OtherFilesSame(sb, blk, Iupdated(sb, blk', inum, d), inum)
    ensures DinodeOn(sb, Iupdated(sb, blk', inum, d), inum) == d
  {
    var r := Iupdated(sb, blk', inum, d);
    IupdateKeepsBitmap(sb, blk', owner', inum, d);
    OwnersInRange(sb, blk, owner, blk', owner', inum);
    IupdatedDinode(sb, blk', inum, d, inum);
    IupdateKeepsSlots(sb, blk', owner', inum, d, inum, d.addrs);
    hide BitmapOk, OwnOk, OthersSame, SameBytes, Iupdated;
    forall i: nat | i < sb.ninodes && i != inum
      ensures DinodeOn(sb, r, i) == DinodeOn(sb, blk, i) && OwnOk(r, owner', i, DinodeOn(sb, r, i).addrs)
      ensures SameBytes(blk, DinodeOn(sb, blk, i).addrs, r, DinodeOn(sb, blk, i).addrs)
    {
      OtherAfterWriteBack(sb, blk, owner, blk', owner', inum, d, i);
    }
    assert forall i :: 0 <= i < sb.ninodes ==> OwnOk(r, owner', i, DinodeOn(sb, r, i).addrs);
  }

  lemma OwnersInRange(sb: Super, blk: seq<Block>, owner: map<nat, Slot>, blk': seq<Block>, owner': map<nat, Slot>, inum: nat)
    requires FsOk(sb, blk, owner) && inum < sb.ninodes && OthersSame(sb, blk, owner, blk', owner', inum)
    ensures forall a :: a in owner' ==> owner'[a].inum < sb.ninodes
  {
    forall a | a in owner'
      ensures owner'[a].inum < sb.ninodes
    {
      assert SameOwner(owner, owner', inum, a);
    }
  }

  lemma OtherAfterWriteBack(sb: Super, blk: seq<Block>, owner: map<nat, Slot>, blk': seq<Block>, owner': map<nat, Slot>,
                            inum: nat, d: Dinode, i: nat)
    requires FsOk(sb, blk, owner) && inum < sb.ninodes && DinodeOk(d) && i < sb.ninodes && i != inum
    requires OthersSame(sb, blk, owner, blk', owner', inum) && BitmapOk(sb, blk', owner')
    ensures var r := Iupdated(sb, blk', inum, d);
      && DinodeOn(sb, r, i) == DinodeOn(sb, blk, i)
      && OwnOk(r, owner', i, DinodeOn(sb, r, i).addrs)
      && SameBytes(blk, DinodeOn(sb, blk, i).addrs, r, DinodeOn(sb, blk, i).addrs)
  {
    var addrs := DinodeOn(sb, blk, i).addrs;
    assert OwnOk(blk, owner, i, addrs);
    assert blk'[IBlock(sb, i)] == blk[IBlock(sb, i)];
    hide FsOk;
    IupdatedDinode(sb, blk', inum, d, i);
    OthersKeep(sb, blk, owner, blk', owner', inum, i, addrs);
    IupdateKeepsSlots(sb, blk', owner', inum, d, i, addrs);
    SameBytesTrans(blk, addrs, blk', addrs, Iupdated(sb, blk', inum, d), addrs);
  }

  /** The same without a write-back, when the inode on disk did not need to change. */
  lemma NoWriteBackNeeded(sb: Super, blk: seq<Block>, owner: map<nat, Slot>, blk': seq<Block>, owner': map<nat, Slot>, inum: nat)
    requires FsOk(sb, blk, owner) && inum < sb.ninodes
    requires OthersSame(sb, blk, owner, blk', owner', inum) && BitmapOk(sb, blk', owner')
    requires OwnOk(blk', owner', inum, DinodeOn(sb, blk, inum).addrs)
    ensures FsOk(sb, blk', owner') && OtherFilesSame(sb, blk, blk', inum)
    ensures DinodeOn(sb, blk', inum) == DinodeOn(sb, blk, inum)
  {
    OwnersInRange(sb, blk, owner, blk', owner', inum);
    DinodesUntouched(sb, blk, owner, blk', owner', inum);
    hide OwnOk, SameBytes, OthersSame, BitmapOk, DinodeOn;
    forall i: nat | i < sb.ninodes && i != inum
      ensures OwnOk(blk', owner', i, DinodeOn(sb, blk', i).addrs)
      ensures SameBytes(blk, DinodeOn(sb, blk, i).addrs, blk', DinodeOn(sb, blk, i).addrs)
    {
      OthersKeep(sb, blk, owner, blk', owner', inum, i, DinodeOn(sb, blk, i).addrs);
    }
    assert forall i :: 0 <= i < sb.ninodes ==> OwnOk(blk', owner', i, DinodeOn(sb, blk', i).addrs);
  }

  lemma DinodesUntouched(sb: Super, blk: seq<Block>, owner: map<nat, Slot>, blk': seq<Block>, owner': map<nat, Slot>, inum: nat)
    requires Disk(sb, blk) && OthersSame(sb, blk, owner, blk', owner', inum)
    ensures forall i :: 0 <= i < sb.ninodes ==> DinodeOn(sb, blk', i) == DinodeOn(sb, blk, i)
  {
    hide DinodeIn;
    forall i: nat | i < sb.ninodes
      ensures DinodeOn(sb, blk', i) == DinodeOn(sb, blk, i)
    {
      assert blk'[IBlock(sb, i)] == blk[IBlock(sb, i)];
    }
  }

  // ----- itrunc

  /** The owners once the slots in done of inode inum have been freed. */
  ghost function Dropped(owner: map<nat, Slot>, inum: nat, done: set<nat>): map<nat, Slot> {
    map a | a in owner && !(owner[a].inum == inum && owner[a].k in done) :: owner[a]
  }

  lemma DropOne(sb: Super, blk: seq<Block>, owner: map<nat, Slot>, inum: nat, addrs: seq<Word>, done: set<nat>, k: nat)
    requires BitmapOk(sb, blk, owner) && OwnOk(blk, owner, inum, addrs) && k < NSLOTS && k !in done
    ensures var a := SlotAddr(blk, addrs, k);
      if a == 0 then Dropped(owner, inum, done + {k}) == Dropped(owner, inum, done)
      else a in Dropped(owner, inum, done) && Dropped(owner, inum, done + {k}) == Dropped(owner, inum, done) - {a}
  {
    var a := SlotAddr(blk, addrs, k);
    assert Holds(blk, owner, inum, addrs, k);
    forall x | x in owner && owner[x] == Slot(inum, k)
      ensures x == a && x != 0
    {
      assert HeldBy(blk, owner[x], inum, addrs, x);
    }
  }

  /** bfree touches only bitmap blocks. */
  ghost predicate OnlyBitmap(sb: Super, blk: seq<Block>, blk': seq<Block>) {
    |blk| == |blk'| == sb.size
    && forall x :: 0 <= x < sb.size && !(sb.bmapstart <= x < NMeta(sb)) ==> blk'[x] == blk[x]
  }

  lemma DroppedLeavesOthers(sb: Super, blk: seq<Block>, owner: map<nat, Slot>, blk': seq<Block>, inum: nat, done: set<nat>)
    requires BitmapOk(sb, blk, owner) && OnlyBitmap(sb, blk, blk')
    ensures OthersSame(sb, blk, owner, blk', Dropped(owner, inum, done), inum)
  {
  }

  const NO_BLOCKS: seq<Word> := [0, 0, 0, 0, 0, 0, 0, 0, 0, 0, 0, 0, 0]

  lemma AllDropped(sb: Super, blk: seq<Block>, owner: map<nat, Slot>, blk': seq<Block>, inum: nat, addrs: seq<Word>, done: set<nat>)
    requires BitmapOk(sb, blk, owner) && OwnOk(blk, owner, inum, addrs) && done == Freed(NDIRECT + 1, NINDIRECT)
    ensures OwnOk(blk', Dropped(owner, inum, done), inum, NO_BLOCKS)
    ensures forall a :: a in Dropped(owner, inum, done) <==> a in owner && owner[a].inum != inum
  {
    var owner' := Dropped(owner, inum, done);
    forall a | a in owner && owner[a].inum == inum
      ensures a !in owner'
    {
      assert HeldBy(blk, owner[a], inum, addrs, a);
      AllFreed(owner[a].k);
    }
    forall k: nat | k < NSLOTS
      ensures Holds(blk', owner', inum, NO_BLOCKS, k)
    {
      assert SlotAddr(blk', NO_BLOCKS, k) == 0;
    }
    forall a | a in owner'
      ensures HeldBy(blk', owner'[a], inum, NO_BLOCKS, a)
    {
    }
  }

  /** Truncation clears the bits of the inode's blocks and of no other block. */
  lemma TruncFreesExactly(sb: Super, blk: seq<Block>, owner: map<nat, Slot>, blk': seq<Block>, owner': map<nat, Slot>,
                          inum: nat, b: nat)
    requires BitmapOk(sb, blk, owner) && BitmapOk(sb, blk', owner') && b < sb.size
    requires forall a :: a in owner' <==> a in owner && owner[a].inum != inum
    ensures Used(sb, blk', b) <==> Used(sb, blk, b) && !(b in owner && owner[b].inum == inum)
  {
    assert BitRight(sb, blk, owner, b) && BitRight(sb, blk', owner', b);
  }

  // ----- balloc's scan

  predicate UsedBelow(sb: Super, blk: seq<Block>, n: int)
    requires Disk(sb, blk)
  {
    forall c :: 0 <= c < n && c < sb.size ==> Used(sb, blk, c)
  }

  /** Every block of the disk is in use: balloc panics. */
  ghost predicate DiskFull(sb: Super, blk: seq<Block>) {
    Disk(sb, blk) && UsedBelow(sb, blk, sb.size)
  }

  lemma UsedToTheEnd(sb: Super, blk: seq<Block>, n: int)
    requires Disk(sb, blk) && UsedBelow(sb, blk, n) && n >= sb.size
    ensures DiskFull(sb, blk)
  {
  }

  /** Bit bi of the bitmap block for b stands for block b + bi. */
  lemma ScanBit(sb: Super, blk: seq<Block>, b: nat, bi: nat)
    requires Disk(sb, blk) && b % BPB == 0 && bi < BPB && b + bi < sb.size
    ensures Used(sb, blk, b + bi) <==> Bit(blk[BBlock(sb, b)], bi)
  {
    assert BBlock(sb, b + bi) == BBlock(sb, b) && (b + bi) % BPB == bi;
  }

  // ----- slots across a bmap call

  ghost predicate SlotsSameBut(blk: seq<Block>, addrs: seq<Word>, blk': seq<Block>, addrs': seq<Word>, k: nat)
    requires |addrs| == NDIRECT + 1 && |addrs'| == NDIRECT + 1
  {
    forall j :: 0 <= j < NSLOTS && j != k ==> SlotAddr(blk', addrs', j) == SlotAddr(blk, addrs, j)
  }

  lemma GrownSlots(sb: Super, blk: seq<Block>, owner: map<nat, Slot>, inum: nat, addrs: seq<Word>, k: nat, a: nat)
    requires CanGrow(sb, blk, owner, inum, addrs, k, a)
    requires k > NDIRECT ==> addrs[NDIRECT] < sb.size
    ensures SlotsSameBut(blk, addrs, Grown(sb, blk, addrs, k, a), GrownAddrs(addrs, k, a), k)
    ensures SlotAddr(Grown(sb, blk, addrs, k, a), GrownAddrs(addrs, k, a), k) == a
  {
    forall j: nat | j < NSLOTS
      ensures SlotAddr(Grown(sb, blk, addrs, k, a), GrownAddrs(addrs, k, a), j)
        == if j == k then a else SlotAddr(blk, addrs, j)
    {
      GrownSlot(sb, blk, owner, inum, addrs, k, a, j);
    }
  }

  /** A bmap call for file block bn may fill its slot and the indirect slot, and no other. */
  ghost predicate SlotsAfterBmap(blk: seq<Block>, addrs: seq<Word>, blk': seq<Block>, addrs': seq<Word>, bn: nat)
    requires |addrs| == NDIRECT + 1 && |addrs'| == NDIRECT + 1
  {
    && (forall j :: 0 <= j < NSLOTS && j != SlotOf(bn) && j != NDIRECT ==>
          SlotAddr(blk', addrs', j) == SlotAddr(blk, addrs, j))
    && (addrs[NDIRECT] != 0 || bn < NDIRECT ==> addrs'[NDIRECT] == addrs[NDIRECT])
  }

  lemma SlotsAfterTwo(b0: seq<Block>, a0: seq<Word>, b1: seq<Block>, a1: seq<Word>, b2: seq<Block>, a2: seq<Word>, bn: nat)
    requires |a0| == |a1| == |a2| == NDIRECT + 1 && NDIRECT <= bn < MAXFILE
    requires SlotsSameBut(b0, a0, b1, a1, NDIRECT) && SlotsSameBut(b1, a1, b2, a2, SlotOf(bn))
    requires a0[NDIRECT] == 0
    ensures SlotsAfterBmap(b0, a0, b2, a2, bn)
  {
  }

  lemma SlotsAfterOne(b0: seq<Block>, a0: seq<Word>, b1: seq<Block>, a1: seq<Word>, bn: nat)
    requires |a0| == |a1| == NDIRECT + 1 && bn < MAXFILE
    requires SlotsSameBut(b0, a0, b1, a1, SlotOf(bn))
    ensures SlotsAfterBmap(b0, a0, b1, a1, bn)
  {
    assert SlotAddr(b1, a1, NDIRECT) == SlotAddr(b0, a0, NDIRECT);
  }

  lemma NothingChanged(sb: Super, blk: seq<Block>, owner: map<nat, Slot>, inum: nat, addrs: seq<Word>, bn: nat)
    requires Disk(sb, blk) && |addrs| == NDIRECT + 1
    ensures SameBytes(blk, addrs, blk, addrs) && OthersSame(sb, blk, owner, blk, owner, inum)
    ensures SlotsAfterBmap(blk, addrs, blk, addrs, bn)
  {
  }

  // ----- the order in which itrunc frees slots

  /** Slots below i, and the first j entries of the indirect block. */
  function Freed(i: nat, j: nat): set<nat> {
    Range(0, i) + Range(NDIRECT + 1, j)
  }

  function Range(lo: nat, n: nat): (r: set<nat>)
    ensures forall k :: k in r <==> lo <= k < lo + n
  {
    if n == 0 then {} else Range(lo, n - 1) + {lo + n - 1}
  }

  lemma FreedSteps(i: nat, j: nat)
    ensures Freed(i + 1, 0) == Freed(i, 0) + {i}
    ensures Freed(NDIRECT, j + 1) == Freed(NDIRECT, j) + {NDIRECT + 1 + j}
    ensures Freed(NDIRECT + 1, j) == Freed(NDIRECT, j) + {NDIRECT}
  {
  }

  lemma NotYetFreed(i: nat, j: nat)
    ensures i <= NDIRECT ==> i !in Freed(i, 0)
    ensures NDIRECT + 1 + j !in Freed(NDIRECT, j) && NDIRECT !in Freed(NDIRECT, j)
  {
  }

  lemma AllFreed(k: nat)
    requires k < NSLOTS
    ensures k in Freed(NDIRECT + 1, NINDIRECT)
  {
  }

  lemma DropNothing(sb: Super, blk: seq<Block>, owner: map<nat, Slot>, inum: nat, addrs: seq<Word>, done: set<nat>, done': set<nat>)
    requires BitmapOk(sb, blk, owner) && OwnOk(blk, owner, inum, addrs) && done <= done'
    requires forall k :: k in done' && k !in done ==> k >= NSLOTS || SlotAddr(blk, addrs, k) == 0
    ensures Dropped(owner, inum, done) == Dropped(owner, inum, done')
  {
    forall x | x in owner && owner[x].inum == inum && owner[x].k in done'
      ensures owner[x].k in done
    {
      assert HeldBy(blk, owner[x], inum, addrs, x);
    }
  }

  lemma BfreeOnlyBitmap(sb: Super, blk0: seq<Block>, blk: seq<Block>, a: nat)
    requires Disk(sb, blk) && a < sb.size && OnlyBitmap(sb, blk0, blk)
    ensures OnlyBitmap(sb, blk0, Bfreed(sb, blk, a))
  {
    BitmapBlock(sb, a);
  }

  // ----- copying bytes in and out

  lemma BlockBytes(blk: seq<Block>, addrs: seq<Word>, o: nat, m: nat)
    requires |addrs| == NDIRECT + 1 && o < MAXFILE * BSIZE && o % BSIZE + m <= BSIZE && o + m <= MAXFILE * BSIZE
    requires 0 < FileBlock(blk, addrs, o / BSIZE) < |blk|
    ensures blk[FileBlock(blk, addrs, o / BSIZE)].bytes[o % BSIZE..o % BSIZE + m] == Bytes(blk, addrs, o, o + m)
  {
    var bytes := blk[FileBlock(blk, addrs, o / BSIZE)].bytes[o % BSIZE..o % BSIZE + m];
    forall i | 0 <= i < m
      ensures bytes[i] == Bytes(blk, addrs, o, o + m)[i]
    {
      assert (o + i) / BSIZE == o / BSIZE && (o + i) % BSIZE == o % BSIZE + i;
    }
  }

  lemma SameBytesRange(blk: seq<Block>, addrs: seq<Word>, blk': seq<Block>, addrs': seq<Word>, lo: nat, hi: nat)
    requires |addrs| == NDIRECT + 1 && |addrs'| == NDIRECT + 1 && SameBytes(blk, addrs, blk', addrs')
    requires lo <= hi <= MAXFILE * BSIZE
    ensures Bytes(blk', addrs', lo, hi) == Bytes(blk, addrs, lo, hi)
  {
    forall i | 0 <= i < hi - lo
      ensures Bytes(blk', addrs', lo, hi)[i] == Bytes(blk, addrs, lo, hi)[i]
    {
      assert ByteAt(blk', addrs', lo + i) == ByteAt(blk, addrs, lo + i);
    }
  }

  lemma BytesConcat(blk: seq<Block>, addrs: seq<Word>, lo: nat, mid: nat, hi: nat)
    requires |addrs| == NDIRECT + 1 && lo <= mid <= hi <= MAXFILE * BSIZE
    ensures Bytes(blk, addrs, lo, mid) + Bytes(blk, addrs, mid, hi) == Bytes(blk, addrs, lo, hi)
  {
  }

  /** Byte x after src has been written at off. */
  function Overlaid(blk: seq<Block>, addrs: seq<Word>, off: nat, src: seq<Byte>, x: nat): Byte
    requires |addrs| == NDIRECT + 1 && x < MAXFILE * BSIZE
  {
    if off <= x < off + |src| then src[x - off] else ByteAt(blk, addrs, x)
  }

  /** The file now is the old one with src written at off. */
  ghost predicate Written(blk: seq<Block>, addrs: seq<Word>, off: nat, src: seq<Byte>, blk': seq<Block>, addrs': seq<Word>)
    requires |addrs| == NDIRECT + 1 && |addrs'| == NDIRECT + 1
  {
    forall x :: 0 <= x < MAXFILE * BSIZE ==> ByteAt(blk', addrs', x) == Overlaid(blk, addrs, off, src, x)
  }

  lemma WrittenSame(blk: seq<Block>, addrs: seq<Word>, off: nat, src: seq<Byte>,
                    blk1: seq<Block>, addrs1: seq<Word>, blk2: seq<Block>, addrs2: seq<Word>)
    requires |addrs| == |addrs1| == |addrs2| == NDIRECT + 1
    requires Written(blk, addrs, off, src, blk1, addrs1) && SameBytes(blk1, addrs1, blk2, addrs2)
    ensures Written(blk, addrs, off, src, blk2, addrs2)
  {
    forall x: nat | x < MAXFILE * BSIZE
      ensures ByteAt(blk2, addrs2, x) == Overlaid(blk, addrs, off, src, x)
    {
      assert ByteAt(blk1, addrs1, x) == Overlaid(blk, addrs, off, src, x);
    }
  }

  /** One pass of writei's loop: splicing m bytes into the block at off + tot. */
  lemma WrittenMore(sb: Super, blk0: seq<Block>, addrs0: seq<Word>, blk: seq<Block>, owner: map<nat, Slot>, inum: nat,
                    addrs: seq<Word>, off: nat, src: seq<Byte>, tot: nat, m: nat)
    requires |addrs0| == NDIRECT + 1 && BitmapOk(sb, blk, owner) && OwnOk(blk, owner, inum, addrs)
    requires tot + m <= |src| && off + tot < MAXFILE * BSIZE && (off + tot) % BSIZE + m <= BSIZE
    requires FileBlock(blk, addrs, (off + tot) / BSIZE) != 0
    requires Written(blk0, addrs0, off, src[..tot], blk, addrs)
    ensures FileBlock(blk, addrs, (off + tot) / BSIZE) < sb.size
    ensures var r := FileBlock(blk, addrs, (off + tot) / BSIZE);
      var b := Splice(blk[r], (off + tot) % BSIZE, src[tot..tot + m]);
      Written(blk0, addrs0, off, src[..tot + m], blk[r := b], addrs)
  {
    var o, bn := off + tot, (off + tot) / BSIZE;
    SlotOwned(sb, blk, owner, inum, addrs, SlotOf(bn));
    var r := FileBlock(blk, addrs, bn);
    var b: Block := Splice(blk[r], o % BSIZE, src[tot..tot + m]);
    var blk', src' := blk[r := b], src[..tot + m];
    forall x: nat | x < MAXFILE * BSIZE
      ensures ByteAt(blk', addrs, x) == Overlaid(blk0, addrs0, off, src', x)
    {
      assert ByteAt(blk, addrs, x) == Overlaid(blk0, addrs0, off, src[..tot], x);
      PatchedByte(sb, blk, owner, inum, addrs, bn, b, x);
      if x / BSIZE == bn {
        assert x == bn * BSIZE + x % BSIZE && o == bn * BSIZE + o % BSIZE;
      }
    }
  }

  // ----- how many blocks a write logs

  /** File blocks the range [off, off + n) touches. */
  function Touched(off: nat, n: nat): nat {
    if n == 0 then 0 else (off + n - 1) / BSIZE - off / BSIZE + 1
  }

  /** File blocks in [lo, hi) that are not there. */
  function Missing(blk: seq<Block>, addrs: seq<Word>, lo: nat, hi: nat): nat
    requires |addrs| == NDIRECT + 1 && lo <= hi <= MAXFILE
    decreases hi - lo
  {
    if lo == hi then 0
    else Missing(blk, addrs, lo, hi - 1) + if FileBlock(blk, addrs, hi - 1) == 0 then 1 else 0
  }

  /** On a hole-free inode only blocks past the end can be missing. */
  lemma {:induction false} MissingHoleFree(blk: seq<Block>, addrs: seq<Word>, size: nat, lo: nat, hi: nat)
    requires |addrs| == NDIRECT + 1 && lo <= hi <= MAXFILE && HoleFree(blk, addrs, size)
    ensures lo * BSIZE >= size ==> Missing(blk, addrs, lo, hi) <= hi - lo
    ensures lo * BSIZE < size && lo < hi ==> Missing(blk, addrs, lo, hi) <= hi - lo - 1
    decreases hi - lo
  {
    if lo < hi {
      MissingHoleFree(blk, addrs, size, lo, hi - 1);
    }
  }

  /** The most blocks a write can log: data, the indirect block, a bitmap block for each block
    * allocated, and the inode.
    */
  function WriteCost(blk: seq<Block>, addrs: seq<Word>, off: nat, n: nat): nat
    requires |addrs| == NDIRECT + 1 && off + n <= MAXFILE * BSIZE
  {
    if n == 0 then 0
    else Touched(off, n) + 1 + (Missing(blk, addrs, off / BSIZE, off / BSIZE + Touched(off, n)) + 1) + 1
  }

  /** filewrite's max, ((MAXOPBLOCKS-1-1-2) / 2) * 512. */
  const MAXCHUNK: nat := (MAXOPBLOCKS - 1 - 1 - 2) / 2 * 512

  /** Every chunk filewrite passes to writei on a hole-free inode fits in one operation's reservation. */
  lemma ChunkFits(blk: seq<Block>, addrs: seq<Word>, size: nat, off: nat, n: nat)
    requires |addrs| == NDIRECT + 1 && HoleFree(blk, addrs, size) && off <= size
    requires n <= MAXCHUNK && off + n <= MAXFILE * BSIZE
    ensures WriteCost(blk, addrs, off, n) <= MAXOPBLOCKS
  {
    if n > 0 {
      MissingHoleFree(blk, addrs, size, off / BSIZE, off / BSIZE + Touched(off, n));
    }
  }

  lemma BlockInRange(sb: Super, blk: seq<Block>, owner: map<nat, Slot>, inum: nat, addrs: seq<Word>, bn: nat)
    requires BitmapOk(sb, blk, owner) && OwnOk(blk, owner, inum, addrs) && bn < MAXFILE
    requires FileBlock(blk, addrs, bn) != 0
    ensures FileBlock(blk, addrs, bn) < |blk| == sb.size
  {
    SlotOwned(sb, blk, owner, inum, addrs, SlotOf(bn));
  }

  /** One pass of readi's loop. */
  lemma ReadChunk(sb: Super, blk0: seq<Block>, addrs0: seq<Word>, blk: seq<Block>, owner: map<nat, Slot>, inum: nat,
                  addrs: seq<Word>, off: nat, o: nat, m: nat)
    requires |addrs0| == NDIRECT + 1 && BitmapOk(sb, blk, owner) && OwnOk(blk, owner, inum, addrs)
    requires SameBytes(blk0, addrs0, blk, addrs)
    requires off <= o < MAXFILE * BSIZE && o % BSIZE + m <= BSIZE && o + m <= MAXFILE * BSIZE
    requires FileBlock(blk, addrs, o / BSIZE) != 0
    ensures FileBlock(blk, addrs, o / BSIZE) < |blk|
    ensures Bytes(blk0, addrs0, off, o) + blk[FileBlock(blk, addrs, o / BSIZE)].bytes[o % BSIZE..o % BSIZE + m]
      == Bytes(blk0, addrs0, off, o + m)
  {
    assert |addrs| == NDIRECT + 1;
    hide BitmapOk, OwnOk, SameBytes, FileBlock, Bytes;
    BlockInRange(sb, blk, owner, inum, addrs, o / BSIZE);
    BlockBytes(blk, addrs, o, m);
    SameBytesRange(blk0, addrs0, blk, addrs, o, o + m);
    BytesConcat(blk0, addrs0, off, o, o + m);
  }

  lemma HoleFreeHas(blk: seq<Block>, addrs: seq<Word>, size: nat, o: nat)
    requires |addrs| == NDIRECT + 1 && HoleFree(blk, addrs, size) && o < size
    ensures FileBlock(blk, addrs, o / BSIZE) != 0
  {
  }

  // ----- counting what writei logs

  function Indirect(addrs: seq<Word>): set<nat>
    requires |addrs| == NDIRECT + 1
  {
    if addrs[NDIRECT] == 0 then {} else {addrs[NDIRECT]}
  }

  /** After writing done blocks from file block b0 on: what has been logged since logged0 is at most one
    * data block per file block, the indirect block, and one bitmap block per allocation.
    */
  ghost predicate Counting(blk0: seq<Block>, addrs0: seq<Word>, b0: nat, done: nat, blk: seq<Block>, addrs: seq<Word>,
                           logged0: set<nat>, logged: set<nat>, bms: set<nat>, dats: set<nat>)
  {
    && |addrs0| == |addrs| == NDIRECT + 1 && b0 + done <= MAXFILE
    && logged <= logged0 + bms + dats + Indirect(addrs)
    && |dats| <= done
    && |bms| <= Missing(blk0, addrs0, b0, b0 + done) + |Indirect(addrs) - Indirect(addrs0)|
    && (addrs0[NDIRECT] != 0 ==> addrs[NDIRECT] == addrs0[NDIRECT])
    && (forall bn :: b0 + done <= bn < MAXFILE ==> FileBlock(blk, addrs, bn) == FileBlock(blk0, addrs0, bn))
  }

  lemma StartCounting(blk0: seq<Block>, addrs0: seq<Word>, b0: nat, logged0: set<nat>)
    requires |addrs0| == NDIRECT + 1 && b0 <= MAXFILE
    ensures Counting(blk0, addrs0, b0, 0, blk0, addrs0, logged0, logged0, {}, {})
  {
  }

  lemma UnionBound(s: set<nat>, t: set<nat>)
    ensures |s + t| <= |s| + |t|
  {
    assert |s + t| + |s * t| == |s| + |t|;
  }

  lemma CountOne(blk0: seq<Block>, addrs0: seq<Word>, b0: nat, done: nat, blk1: seq<Block>, addrs1: seq<Word>,
                 blk2: seq<Block>, addrs2: seq<Word>, logged0: set<nat>, logged1: set<nat>, logged2: set<nat>,
                 bms: set<nat>, dats: set<nat>, bm: set<nat>, allocs: nat, r: nat)
    requires Counting(blk0, addrs0, b0, done, blk1, addrs1, logged0, logged1, bms, dats)
    requires b0 + done < MAXFILE && |addrs2| == NDIRECT + 1
    requires SlotsAfterBmap(blk1, addrs1, blk2, addrs2, b0 + done) && FileBlock(blk2, addrs2, b0 + done) != 0
    requires |bm| <= allocs
    requires FileBlock(blk1, addrs1, b0 + done) != 0 ==> allocs == 0
    requires allocs <= 1 + (if b0 + done >= NDIRECT && addrs1[NDIRECT] == 0 then 1 else 0)
    requires logged2 <= logged1 + bm + {r} + (if b0 + done < NDIRECT then {} else {addrs2[NDIRECT]})
    ensures Counting(blk0, addrs0, b0, done + 1, blk2, addrs2, logged0, logged2, bms + bm, dats + {r})
  {
    UnionBound(bms, bm);
    UnionBound(dats, {r});
    var i0, i1, i2 := Indirect(addrs0), Indirect(addrs1), Indirect(addrs2);
    assert i1 <= i2;
    if b0 + done >= NDIRECT && addrs1[NDIRECT] == 0 {
      assert addrs2[NDIRECT] != 0;
      assert i1 - i0 == {} && i2 - i0 == {addrs2[NDIRECT]};
    } else if addrs1[NDIRECT] != 0 {
      assert i1 == i2;
    }
    assert |bms + bm| <= Missing(blk0, addrs0, b0, b0 + done + 1) + |i2 - i0|;
    forall bn | b0 + done + 1 <= bn < MAXFILE
      ensures FileBlock(blk2, addrs2, bn) == FileBlock(blk0, addrs0, bn)
    {
      assert SlotOf(bn) != SlotOf(b0 + done) && SlotOf(bn) != NDIRECT;
      assert FileBlock(blk1, addrs1, bn) == FileBlock(blk0, addrs0, bn);
    }
  }

  /** Rewriting a data block changes no slot, so the count carries over. */
  lemma CountPatch(sb: Super, owner: map<nat, Slot>, inum: nat, bn: nat, b: Block,
                   blk0: seq<Block>, addrs0: seq<Word>, b0: nat, done: nat, blk: seq<Block>, addrs: seq<Word>,
                   logged0: set<nat>, logged: set<nat>, bms: set<nat>, dats: set<nat>)
    requires Counting(blk0, addrs0, b0, done, blk, addrs, logged0, logged, bms, dats)
    requires BitmapOk(sb, blk, owner) && OwnOk(blk, owner, inum, addrs) && bn < MAXFILE
    requires FileBlock(blk, addrs, bn) != 0 && FileBlock(blk, addrs, bn) in dats
    ensures FileBlock(blk, addrs, bn) < sb.size
    ensures var r := FileBlock(blk, addrs, bn);
      Counting(blk0, addrs0, b0, done, blk[r := b], addrs, logged0, logged + {r}, bms, dats)
  {
    var r := FileBlock(blk, addrs, bn);
    BlockInRange(sb, blk, owner, inum, addrs, bn);
    forall c | b0 + done <= c < MAXFILE
      ensures FileBlock(blk[r := b], addrs, c) == FileBlock(blk0, addrs0, c)
    {
      PatchKeepsSlot(sb, blk, owner, inum, addrs, bn, b, SlotOf(c));
      assert FileBlock(blk, addrs, c) == FileBlock(blk0, addrs0, c);
    }
  }

  lemma CountTotal(blk0: seq<Block>, addrs0: seq<Word>, b0: nat, done: nat, blk: seq<Block>, addrs: seq<Word>,
                   logged: set<nat>, bms: set<nat>, dats: set<nat>)
    requires Counting(blk0, addrs0, b0, done, blk, addrs, {}, logged, bms, dats)
    ensures |logged| <= done + 1 + (Missing(blk0, addrs0, b0, b0 + done) + 1)
  {
    var all := bms + dats + Indirect(addrs);
    UnionBound(bms, dats);
    UnionBound(bms + dats, Indirect(addrs));
    assert logged <= all;
    SubsetSize(logged, all);
    SubsetSize(Indirect(addrs) - Indirect(addrs0), Indirect(addrs));
  }

  lemma {:induction false} SubsetSize(s: set<nat>, t: set<nat>)
    requires s <= t
    ensures |s| <= |t|
  {
    if s != {} {
      var x :| x in s;
      SubsetSize(s - {x}, t - {x});
    }
  }

  lemma StartWriting(sb: Super, blk: seq<Block>, owner: map<nat, Slot>, inum: nat, addrs: seq<Word>, off: nat)
    requires BitmapOk(sb, blk, owner) && OwnOk(blk, owner, inum, addrs) && off <= MAXFILE * BSIZE
    ensures Writing(sb, blk, addrs, owner, off, [], 0, blk, owner, inum, addrs, {}, {}, {})
  {
    StartCounting(blk, addrs, off / BSIZE, {});
    NothingChanged(sb, blk, owner, inum, addrs, 0);
  }

  /** At the end everything is written and the log holds fewer blocks than WriteCost allows. */
  lemma DoneWriting(sb: Super, blk0: seq<Block>, addrs0: seq<Word>, owner0: map<nat, Slot>, off: nat, src: seq<Byte>,
                    blk: seq<Block>, owner: map<nat, Slot>, inum: nat, addrs: seq<Word>,
                    logged: set<nat>, bms: set<nat>, dats: set<nat>)
    requires Writing(sb, blk0, addrs0, owner0, off, src, Touched(off, |src|), blk, owner, inum, addrs, logged, bms, dats)
    requires off + |src| <= MAXFILE * BSIZE
    ensures src != [] ==> |logged| < WriteCost(blk0, addrs0, off, |src|)
  {
    CountTotal(blk0, addrs0, off / BSIZE, Touched(off, |src|), blk, addrs, logged, bms, dats);
  }

  /** Each pass of the copy loop ends at a block boundary or at the end of the data. */
  lemma NextBlock(off: nat, n: nat, tot: nat, m: nat, done: nat)
    requires tot < n && (off + tot) / BSIZE == off / BSIZE + done
    requires m == Min(n - tot, BSIZE - (off + tot) % BSIZE)
    ensures m >= 1 && tot + m <= n
    ensures tot + m < n ==> (off + tot + m) / BSIZE == off / BSIZE + done + 1
    ensures tot + m == n ==> done + 1 == Touched(off, n)
  {
  }

  /** Blocks that were there still are, and the done blocks from b0 on are there. */
  ghost predicate Filled(blk0: seq<Block>, addrs0: seq<Word>, b0: nat, done: nat, blk: seq<Block>, addrs: seq<Word>)
    requires |addrs0| == |addrs| == NDIRECT + 1
  {
    && (forall bn :: 0 <= bn < MAXFILE && FileBlock(blk0, addrs0, bn) != 0 ==> FileBlock(blk, addrs, bn) != 0)
    && (forall bn :: b0 <= bn < b0 + done && bn < MAXFILE ==> FileBlock(blk, addrs, bn) != 0)
  }

  lemma FilledAfterBmap(blk0: seq<Block>, addrs0: seq<Word>, b0: nat, done: nat, blk1: seq<Block>, addrs1: seq<Word>,
                        blk2: seq<Block>, addrs2: seq<Word>)
    requires |addrs0| == |addrs1| == |addrs2| == NDIRECT + 1 && b0 + done < MAXFILE
    requires Filled(blk0, addrs0, b0, done, blk1, addrs1)
    requires SlotsAfterBmap(blk1, addrs1, blk2, addrs2, b0 + done) && FileBlock(blk2, addrs2, b0 + done) != 0
    ensures Filled(blk0, addrs0, b0, done + 1, blk2, addrs2)
  {
    forall bn: nat | bn < MAXFILE && FileBlock(blk1, addrs1, bn) != 0
      ensures FileBlock(blk2, addrs2, bn) != 0
    {
      if bn != b0 + done {
        assert SlotOf(bn) != SlotOf(b0 + done) && SlotOf(bn) != NDIRECT;
      }
    }
  }

  lemma FilledAfterPatch(sb: Super, owner: map<nat, Slot>, inum: nat, c: nat, b: Block,
                         blk0: seq<Block>, addrs0: seq<Word>, b0: nat, done: nat, blk: seq<Block>, addrs: seq<Word>)
    requires |addrs0| == |addrs| == NDIRECT + 1 && Filled(blk0, addrs0, b0, done, blk, addrs)
    requires BitmapOk(sb, blk, owner) && OwnOk(blk, owner, inum, addrs) && c < MAXFILE && FileBlock(blk, addrs, c) != 0
    ensures FileBlock(blk, addrs, c) < sb.size
    ensures Filled(blk0, addrs0, b0, done, blk[FileBlock(blk, addrs, c) := b], addrs)
  {
    BlockInRange(sb, blk, owner, inum, addrs, c);
    var blk' := blk[FileBlock(blk, addrs, c) := b];
    forall bn: nat | bn < MAXFILE
      ensures FileBlock(blk', addrs, bn) == FileBlock(blk, addrs, bn)
    {
      PatchKeepsSlot(sb, blk, owner, inum, addrs, c, b, SlotOf(bn));
    }
  }

  /** A hole-free file stays hole-free when a write starts no further than its end. */
  lemma HoleFreeAfterWrite(blk0: seq<Block>, addrs0: seq<Word>, size: nat, off: nat, n: nat, blk: seq<Block>, addrs: seq<Word>)
    requires |addrs0| == |addrs| == NDIRECT + 1 && HoleFree(blk0, addrs0, size)
    requires off <= size && 0 < n && off + n <= MAXFILE * BSIZE
    requires Filled(blk0, addrs0, off / BSIZE, Touched(off, n), blk, addrs)
    ensures HoleFree(blk, addrs, Max(size, off + n))
  {
    forall bn: nat | bn < MAXFILE && bn * BSIZE < Max(size, off + n)
      ensures FileBlock(blk, addrs, bn) != 0
    {
      if bn * BSIZE < size {
        assert FileBlock(blk0, addrs0, bn) != 0;
      } else {
        assert off / BSIZE <= bn < off / BSIZE + Touched(off, n);
      }
    }
  }

  /** Part-way through writei, with the prefix written of its data and done file blocks behind it. */
  ghost predicate Writing(sb: Super, blk0: seq<Block>, addrs0: seq<Word>, owner0: map<nat, Slot>, off: nat, prefix: seq<Byte>,
                          done: nat, blk: seq<Block>, owner: map<nat, Slot>, inum: nat, addrs: seq<Word>,
                          logged: set<nat>, bms: set<nat>, dats: set<nat>)
  {
    && |addrs0| == NDIRECT + 1 && BitmapOk(sb, blk, owner) && OwnOk(blk, owner, inum, addrs)
    && Written(blk0, addrs0, off, prefix, blk, addrs) && OthersSame(sb, blk0, owner0, blk, owner, inum)
    && Filled(blk0, addrs0, off / BSIZE, done, blk, addrs)
    && Counting(blk0, addrs0, off / BSIZE, done, blk, addrs, {}, logged, bms, dats)
  }

  /** bmap's part of a pass. */
  lemma WritingAfterBmap(sb: Super, blk0: seq<Block>, addrs0: seq<Word>, owner0: map<nat, Slot>, off: nat, prefix: seq<Byte>,
                         done: nat, blk1: seq<Block>, owner1: map<nat, Slot>, inum: nat, addrs1: seq<Word>, logged1: set<nat>,
                         bms: set<nat>, dats: set<nat>, blk2: seq<Block>, owner2: map<nat, Slot>, addrs2: seq<Word>,
                         logged2: set<nat>, bm: set<nat>, allocs: nat, r: nat)
    requires Writing(sb, blk0, addrs0, owner0, off, prefix, done, blk1, owner1, inum, addrs1, logged1, bms, dats)
    requires BitmapOk(sb, blk2, owner2) && OwnOk(blk2, owner2, inum, addrs2) && off / BSIZE + done < MAXFILE
    requires SameBytes(blk1, addrs1, blk2, addrs2) && OthersSame(sb, blk1, owner1, blk2, owner2, inum)
    requires SlotsAfterBmap(blk1, addrs1, blk2, addrs2, off / BSIZE + done)
    requires r == FileBlock(blk2, addrs2, off / BSIZE + done) != 0
    requires |bm| <= allocs
    requires FileBlock(blk1, addrs1, off / BSIZE + done) != 0 ==> allocs == 0
    requires allocs <= 1 + (if off / BSIZE + done >= NDIRECT && addrs1[NDIRECT] == 0 then 1 else 0)
    requires logged2 <= logged1 + bm + {r} + (if off / BSIZE + done < NDIRECT then {} else {addrs2[NDIRECT]})
    ensures Writing(sb, blk0, addrs0, owner0, off, prefix, done + 1, blk2, owner2, inum, addrs2, logged2, bms + bm, dats + {r})
  {
    assert |addrs1| == |addrs2| == NDIRECT + 1;
    hide BitmapOk, OwnOk, Written, OthersSame, Counting, SameBytes, SlotsAfterBmap, FileBlock, Filled;
    FilledAfterBmap(blk0, addrs0, off / BSIZE, done, blk1, addrs1, blk2, addrs2);
    CountOne(blk0, addrs0, off / BSIZE, done, blk1, addrs1, blk2, addrs2, {}, logged1, logged2, bms, dats, bm, allocs, r);
    WrittenSame(blk0, addrs0, off, prefix, blk1, addrs1, blk2, addrs2);
    OthersTrans(sb, blk0, owner0, blk1, owner1, blk2, owner2, inum);
  }

  /** memmove's part of a pass: m bytes of src go into file block bn at byte at. */
  lemma WritingAfterCopy(sb: Super, blk0: seq<Block>, addrs0: seq<Word>, owner0: map<nat, Slot>, off: nat, src: seq<Byte>,
                         tot: nat, m: nat, bn: nat, at: nat, done: nat, blk: seq<Block>, owner: map<nat, Slot>, inum: nat,
                         addrs: seq<Word>, logged: set<nat>, bms: set<nat>, dats: set<nat>, r: nat)
    requires tot + m <= |src| && bn < MAXFILE && at < BSIZE && off + tot == bn * BSIZE + at && at + m <= BSIZE
    requires Writing(sb, blk0, addrs0, owner0, off, src[..tot], done, blk, owner, inum, addrs, logged, bms, dats)
    requires r == FileBlock(blk, addrs, bn) != 0 && r in dats
    ensures r < |blk|
    ensures var b: Block := Splice(blk[r], at, src[tot..tot + m]);
      Writing(sb, blk0, addrs0, owner0, off, src[..tot + m], done, blk[r := b], owner, inum, addrs, logged + {r}, bms, dats)
  {
    assert (off + tot) / BSIZE == bn && (off + tot) % BSIZE == at;
    hide BitmapOk, OwnOk, Written, OthersSame, Counting, FileBlock, Splice, Filled;
    BlockInRange(sb, blk, owner, inum, addrs, bn);
    var b: Block := Splice(blk[r], at, src[tot..tot + m]);
    WrittenMore(sb, blk0, addrs0, blk, owner, inum, addrs, off, src, tot, m);
    PatchKeepsOwners(sb, blk, owner, inum, addrs, bn, b);
    FilledAfterPatch(sb, owner, inum, bn, b, blk0, addrs0, off / BSIZE, done, blk, addrs);
    CountPatch(sb, owner, inum, bn, b, blk0, addrs0, off / BSIZE, done, blk, addrs, {}, logged, bms, dats);
    OthersTrans(sb, blk0, owner0, blk, owner, blk[r := b], owner, inum);
  }

  /** Inside a hole-free file the next block to be written is already there. */
  lemma InsideHasBlock(sb: Super, blk0: seq<Block>, addrs0: seq<Word>, owner0: map<nat, Slot>, off: nat, prefix: seq<Byte>,
                       done: nat, blk: seq<Block>, owner: map<nat, Slot>, inum: nat, addrs: seq<Word>,
                       logged: set<nat>, bms: set<nat>, dats: set<nat>, size: nat, o: nat)
    requires Writing(sb, blk0, addrs0, owner0, off, prefix, done, blk, owner, inum, addrs, logged, bms, dats)
    requires o < MAXFILE * BSIZE && o / BSIZE == off / BSIZE + done
    ensures o / BSIZE < MAXFILE && |addrs| == NDIRECT + 1
    ensures HoleFree(blk0, addrs0, size) && o < size ==> FileBlock(blk, addrs, o / BSIZE) != 0
  {
  }

  lemma HoleFreeData(sb: Super, blk: seq<Block>, blk': seq<Block>, owner: map<nat, Slot>, i: nat, addrs: seq<Word>, size: nat)
    requires BitmapOk(sb, blk, owner) && OwnOk(blk, owner, i, addrs) && DataSame(sb, blk, blk')
    requires HoleFree(blk, addrs, size)
    ensures HoleFree(blk', addrs, size)
  {
    forall bn: nat | bn < MAXFILE && bn * BSIZE < size
      ensures FileBlock(blk', addrs, bn) != 0
    {
      assert FileBlock(blk, addrs, bn) != 0;
      if addrs[NDIRECT] != 0 {
        SlotOwned(sb, blk, owner, i, addrs, NDIRECT);
      }
    }
  }

  /** writei's ending when the file grew: the inode is written back. */
  lemma WriteGrew(sb: Super, blk0: seq<Block>, addrs0: seq<Word>, owner0: map<nat, Slot>, off: nat, src: seq<Byte>, size: nat,
                  blk: seq<Block>, owner: map<nat, Slot>, inum: nat, d: Dinode)
    requires FsOk(sb, blk0, owner0) && inum < sb.ninodes && |addrs0| == NDIRECT + 1 && DinodeOk(d)
    requires BitmapOk(sb, blk, owner) && OwnOk(blk, owner, inum, d.addrs)
    requires Written(blk0, addrs0, off, src, blk, d.addrs) && OthersSame(sb, blk0, owner0, blk, owner, inum)
    requires Filled(blk0, addrs0, off / BSIZE, Touched(off, |src|), blk, d.addrs)
    requires off <= size && src != [] && off + |src| <= MAXFILE * BSIZE
    ensures var r := Iupdated(sb, blk, inum, d);
      && FsOk(sb, r, owner) && DinodeOn(sb, r, inum) == d && OtherFilesSame(sb, blk0, r, inum)
      && Written(blk0, addrs0, off, src, r, d.addrs)
      && (HoleFree(blk0, addrs0, size) ==> HoleFree(r, d.addrs, Max(size, off + |src|)))
  {
    var r := Iupdated(sb, blk, inum, d);
    hide BitmapOk, OwnOk, Written, OthersSame, Filled, HoleFree, Iupdated, FsOk, OtherFilesSame, DataSame, SameBytes;
    WriteBackRestores(sb, blk0, owner0, blk, owner, inum, d);
    IupdateKeepsSlots(sb, blk, owner, inum, d, inum, d.addrs);
    WrittenSame(blk0, addrs0, off, src, blk, d.addrs, r, d.addrs);
    IupdatedElsewhere(sb, blk, inum, d);
    if HoleFree(blk0, addrs0, size) {
      HoleFreeAfterWrite(blk0, addrs0, size, off, |src|, blk, d.addrs);
      HoleFreeData(sb, blk, r, owner, inum, d.addrs, Max(size, off + |src|));
    }
  }

  /** writei's ending when the file did not grow and nothing had to be allocated. */
  lemma WriteInside(sb: Super, blk0: seq<Block>, owner0: map<nat, Slot>, off: nat, src: seq<Byte>, size: nat,
                    blk: seq<Block>, inum: nat, addrs: seq<Word>)
    requires FsOk(sb, blk0, owner0) && inum < sb.ninodes && addrs == DinodeOn(sb, blk0, inum).addrs
    requires BitmapOk(sb, blk, owner0) && OwnOk(blk, owner0, inum, addrs)
    requires OthersSame(sb, blk0, owner0, blk, owner0, inum)
    requires Filled(blk0, addrs, off / BSIZE, Touched(off, |src|), blk, addrs) && HoleFree(blk0, addrs, size)
    ensures FsOk(sb, blk, owner0) && DinodeOn(sb, blk, inum) == DinodeOn(sb, blk0, inum)
    ensures OtherFilesSame(sb, blk0, blk, inum) && HoleFree(blk, addrs, size)
  {
    hide FsOk, BitmapOk, OwnOk, OthersSame, OtherFilesSame;
    NoWriteBackNeeded(sb, blk0, owner0, blk, owner0, inum);
  }

  lemma WritingFacts(sb: Super, blk0: seq<Block>, addrs0: seq<Word>, owner0: map<nat, Slot>, off: nat, prefix: seq<Byte>,
                     done: nat, blk: seq<Block>, owner: map<nat, Slot>, inum: nat, addrs: seq<Word>,
                     logged: set<nat>, bms: set<nat>, dats: set<nat>)
    requires Writing(sb, blk0, addrs0, owner0, off, prefix, done, blk, owner, inum, addrs, logged, bms, dats)
    ensures |addrs0| == |addrs| == NDIRECT + 1 && BitmapOk(sb, blk, owner) && OwnOk(blk, owner, inum, addrs)
    ensures Written(blk0, addrs0, off, prefix, blk, addrs) && OthersSame(sb, blk0, owner0, blk, owner, inum)
    ensures Filled(blk0, addrs0, off / BSIZE, done, blk, addrs)
  {
  }

  // ----- consecutive writes

  lemma WrittenTwice(blk0: seq<Block>, addrs0: seq<Word>, off: nat, data: seq<Byte>, i: nat, n: nat,
                     blk1: seq<Block>, addrs1: seq<Word>, blk2: seq<Block>, addrs2: seq<Word>)
    requires |addrs0| == |addrs1| == |addrs2| == NDIRECT + 1 && i + n <= |data|
    requires Written(blk0, addrs0, off, data[..i], blk1, addrs1)
    requires Written(blk1, addrs1, off + i, data[i..i + n], blk2, addrs2)
    ensures Written(blk0, addrs0, off, data[..i + n], blk2, addrs2)
  {
    var all := data[..i + n];
    forall x: nat | x < MAXFILE * BSIZE
      ensures ByteAt(blk2, addrs2, x) == Overlaid(blk0, addrs0, off, all, x)
    {
      assert ByteAt(blk1, addrs1, x) == Overlaid(blk0, addrs0, off, data[..i], x);
      assert ByteAt(blk2, addrs2, x) == Overlaid(blk1, addrs1, off + i, data[i..i + n], x);
    }
  }

  lemma OtherFilesTrans(sb: Super, blk0: seq<Block>, blk1: seq<Block>, blk2: seq<Block>, inum: nat)
    requires OtherFilesSame(sb, blk0, blk1, inum) && OtherFilesSame(sb, blk1, blk2, inum)
    ensures OtherFilesSame(sb, blk0, blk2, inum)
  {
    hide SameBytes, DinodeOn;
    forall i: nat | i < sb.ninodes && i != inum
      ensures DinodeOn(sb, blk2, i) == DinodeOn(sb, blk0, i)
      ensures SameBytes(blk0, DinodeOn(sb, blk0, i).addrs, blk2, DinodeOn(sb, blk0, i).addrs)
    {
      var a := DinodeOn(sb, blk0, i).addrs;
      assert DinodeOn(sb, blk1, i) == DinodeOn(sb, blk0, i);
      SameBytesTrans(blk0, a, blk1, a, blk2, a);
    }
  }

  lemma NothingWrittenYet(sb: Super, blk: seq<Block>, addrs: seq<Word>, off: nat, data: seq<Byte>, inum: nat)
    requires Disk(sb, blk) && |addrs| == NDIRECT + 1
    ensures Written(blk, addrs, off, data[..0], blk, addrs) && OtherFilesSame(sb, blk, blk, inum)
  {
  }

  // ----- slots of the inodes an operation does not touch

  lemma OthersKeepSlot(sb: Super, blk: seq<Block>, owner: map<nat, Slot>, blk': seq<Block>, owner': map<nat, Slot>,
                       inum: nat, i: nat, addrs: seq<Word>, k: nat)
    requires BitmapOk(sb, blk, owner) && OthersSame(sb, blk, owner, blk', owner', inum) && i != inum
    requires OwnOk(blk, owner, i, addrs) && k < NSLOTS
    ensures SlotAddr(blk', addrs, k) == SlotAddr(blk, addrs, k)
  {
    if k > NDIRECT && addrs[NDIRECT] != 0 {
      SlotOwned(sb, blk, owner, i, addrs, NDIRECT);
    }
  }

  lemma DataSameSlot(sb: Super, blk: seq<Block>, blk': seq<Block>, owner: map<nat, Slot>, i: nat, addrs: seq<Word>, k: nat)
    requires BitmapOk(sb, blk, owner) && OwnOk(blk, owner, i, addrs) && DataSame(sb, blk, blk') && k < NSLOTS
    ensures SlotAddr(blk', addrs, k) == SlotAddr(blk, addrs, k)
  {
    if k > NDIRECT && addrs[NDIRECT] != 0 {
      SlotOwned(sb, blk, owner, i, addrs, NDIRECT);
    }
  }

  /** The file has exactly the blocks its size calls for. */
  ghost predicate Tight(blk: seq<Block>, addrs: seq<Word>, size: nat)
    requires |addrs| == NDIRECT + 1
  {
    size <= MAXFILE * BSIZE && forall bn :: 0 <= bn < MAXFILE ==> (FileBlock(blk, addrs, bn) != 0 <==> bn * BSIZE < size)
  }

  lemma TightHoleFree(blk: seq<Block>, addrs: seq<Word>, size: nat)
    requires |addrs| == NDIRECT + 1 && Tight(blk, addrs, size)
    ensures HoleFree(blk, addrs, size)
  {
  }

  /** Appending at the end of a tight file leaves it tight. */
  lemma TightAfterAppend(blk0: seq<Block>, addrs0: seq<Word>, size: nat, n: nat, blk: seq<Block>, addrs: seq<Word>,
                         logged0: set<nat>, logged: set<nat>, bms: set<nat>, dats: set<nat>)
    requires |addrs0| == |addrs| == NDIRECT + 1 && Tight(blk0, addrs0, size) && size + n <= MAXFILE * BSIZE
    requires Filled(blk0, addrs0, size / BSIZE, Touched(size, n), blk, addrs)
    requires Counting(blk0, addrs0, size / BSIZE, Touched(size, n), blk, addrs, logged0, logged, bms, dats)
    ensures Tight(blk, addrs, size + n)
  {
    var b0, t := size / BSIZE, Touched(size, n);
    forall bn: nat | bn < MAXFILE
      ensures FileBlock(blk, addrs, bn) != 0 <==> bn * BSIZE < size + n
    {
      assert FileBlock(blk0, addrs0, bn) != 0 <==> bn * BSIZE < size;
      if bn >= b0 + t {
        assert FileBlock(blk, addrs, bn) == FileBlock(blk0, addrs0, bn);
      } else if bn >= b0 {
        assert FileBlock(blk, addrs, bn) != 0;
      }
    }
  }
}
