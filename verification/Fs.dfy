/** The block and inode layers of fs.c: balloc, bfree, bmap, itrunc, iupdate, readi and writei, and
  * the chunking of filewrite in file.c.
  *
  * blk is the logical disk: what bread returns, pinned buffers included.  A panic that a full disk
  * causes is the None of an Option; the other panics are proved unreachable.
  */
module Fs {
  import opened Param
  import opened FsFormat
  import opened FsModel

  class Inode {
    const inum: nat
    var typ: Half
    var major: Half
    var minor: Half
    var nlink: Half
    var size: Word
    var addrs: seq<Word>

    constructor (inum: nat, d: Dinode)
      ensures this.inum == inum && Din() == d
    {
      this.inum := inum;
      typ, major, minor, nlink, size, addrs := d.typ, d.major, d.minor, d.nlink, d.size, d.addrs;
    }

    function Din(): Dinode
      reads this
    {
      Dinode(typ, major, minor, nlink, size, addrs)
    }
  }

  /** struct file, for an inode. */
  class File {
    const ip: Inode
    var off: nat

    constructor (ip: Inode, off: nat)
      ensures this.ip == ip && this.off == off
    {
      this.ip, this.off := ip, off;
    }
  }

  class FileSystem {
    const sb: Super
    var blk: seq<Block>
    ghost var owner: map<nat, Slot>
    ghost var logged: set<nat>          // blocks log_write has recorded in this operation
    ghost var start: seq<Block>         // the logical disk when the operation began

    /** Every block the operation has changed has been handed to log_write. */
    ghost predicate Recorded()
      reads this
    {
      |start| == |blk| && forall x :: 0 <= x < |blk| && blk[x] != start[x] ==> x in logged
    }

    constructor (sb: Super, blk: seq<Block>, ghost owner: map<nat, Slot>)
      ensures this.sb == sb && this.blk == blk && this.owner == owner && logged == {} && start == blk && Recorded()
    {
      this.sb, this.blk, this.owner, logged, start := sb, blk, owner, {}, blk;
    }

    /** Between operations, with ip holding exactly what is on disk. */
    ghost predicate Clean(ip: Inode)
      reads this, ip
    {
      FsOk(sb, blk, owner) && ip.inum < sb.ninodes && DinodeOn(sb, blk, ip.inum) == ip.Din()
    }

    /** Inside an operation on ip: ownership is exact for the in-memory inode. */
    ghost predicate Holding(ip: Inode)
      reads this, ip
    {
      BitmapOk(sb, blk, owner) && OwnOk(blk, owner, ip.inum, ip.addrs)
    }

    /** log_write on the buffer of block a, whose new contents are b. */
    method LogWrite(a: nat, b: Block)
      requires Recorded() && a < |blk|
      modifies this`blk, this`logged
      ensures Recorded()
      ensures blk == old(blk)[a := b] && logged == old(logged) + {a}
    {
      blk := blk[a := b];
      logged := logged + {a};
    }

    lemma HeldSlots(ip: Inode)
      requires Holding(ip)
      ensures |ip.addrs| == NDIRECT + 1 && Disk(sb, blk)
    {
    }

    /** balloc: the lowest free block, marked and zeroed; None is the panic "out of blocks". */
    method Balloc() returns (r: Option<nat>)
      requires Recorded()
      requires Disk(sb, blk)
      modifies this`blk, this`logged
      ensures Recorded()
      ensures r.None? ==> DiskFull(sb, blk) && blk == old(blk) && logged == old(logged)
      ensures r.Some? ==>
        && r.value < sb.size && !Used(sb, old(blk), r.value)
        && UsedBelow(sb, old(blk), r.value)
        && blk == Balloced(sb, old(blk), r.value)
        && logged == old(logged) + {BBlock(sb, r.value), r.value}
    {
      assert UsedBelow(sb, blk, 0);
      hide Used, Bit, Balloced, Recorded, Disk, DiskFull, UsedBelow;
      var b := 0;
      while b < sb.size
        invariant 0 <= b && b % BPB == 0
        invariant blk == old(blk) && logged == old(logged) && Recorded()
        invariant UsedBelow(sb, blk, b)
      {
        r := BallocIn(b);
        if r.Some? {
          return;
        }
        b := b + BPB;
      }
      UsedToTheEnd(sb, blk, b);
      return None;
    }

    /** The inner loop of balloc, over the bitmap block that stands for block b and those after it. */
    method BallocIn(b: nat) returns (r: Option<nat>)
      requires Recorded()
      requires Disk(sb, blk) && b < sb.size && b % BPB == 0 && UsedBelow(sb, blk, b)
      modifies this`blk, this`logged
      ensures Recorded()
      ensures r.None? ==> blk == old(blk) && logged == old(logged) && UsedBelow(sb, blk, b + BPB)
      ensures r.Some? ==>
        && r.value < sb.size && !Used(sb, old(blk), r.value)
        && UsedBelow(sb, old(blk), r.value)
        && blk == Balloced(sb, old(blk), r.value)
        && logged == old(logged) + {BBlock(sb, r.value), r.value}
    {
      hide Used, Bit, Balloced;
      BitmapBlock(sb, b);
      var bp := blk[BBlock(sb, b)];
      var bi := 0;
      while bi < BPB && b + bi < sb.size
        invariant 0 <= bi <= BPB
        invariant blk == old(blk) && logged == old(logged) && Recorded()
        invariant UsedBelow(sb, blk, b + bi)
      {
        ScanBit(sb, blk, b, bi);
        if !Bit(bp, bi) {
          Take(b + bi);
          return Some(b + bi);
        }
        bi := bi + 1;
      }
      return None;
    }

    /** balloc's effect on a free block: set its bit, log the bitmap block, zero and log the block. */
    method Take(a: nat)
      requires Recorded()
      requires Disk(sb, blk) && a < sb.size
      modifies this`blk, this`logged
      ensures Recorded()
      ensures blk == Balloced(sb, old(blk), a) && logged == old(logged) + {BBlock(sb, a), a}
    {
      BitmapBlock(sb, a);
      var bm := BBlock(sb, a);
      var marked: Block := SetBit(blk[bm], a % BPB);
      LogWrite(bm, marked);
      LogWrite(a, Zero());
    }

    /** bfree; its panic "freeing free block" is the second precondition. */
    method Bfree(a: nat)
      requires Recorded()
      requires Disk(sb, blk) && a < sb.size
      requires Used(sb, blk, a)
      modifies this`blk, this`logged
      ensures Recorded()
      ensures blk == Bfreed(sb, old(blk), a) && logged == old(logged) + {BBlock(sb, a)}
    {
      BitmapBlock(sb, a);
      var bm := BBlock(sb, a);
      var cleared: Block := ClearBit(blk[bm], a % BPB);
      LogWrite(bm, cleared);
    }

    /** "slot k = balloc()": a free block becomes slot k of the inode.  For an entry of the indirect
      * block that block is modified and logged too.
      */
    method Fill(ip: Inode, k: nat) returns (r: Option<nat>)
      requires Recorded()
      requires Holding(ip) && k < NSLOTS && SlotAddr(blk, ip.addrs, k) == 0
      requires k > NDIRECT ==> ip.addrs[NDIRECT] != 0
      modifies this`blk, this`logged, this`owner, ip`addrs
      ensures Recorded()
      ensures r.None? ==> DiskFull(sb, blk)
      ensures r.Some? ==> Holding(ip) && SlotAddr(blk, ip.addrs, k) == r.value != 0
      ensures r.Some? ==> r.value < sb.size && owner == old(owner)[r.value := Slot(ip.inum, k)]
      ensures r.Some? ==> SlotsSameBut(old(blk), old(ip.addrs), blk, ip.addrs, k)
      ensures r.Some? ==> SameBytes(old(blk), old(ip.addrs), blk, ip.addrs)
      ensures r.Some? ==> OthersSame(sb, old(blk), old(owner), blk, owner, ip.inum)
      ensures r.Some? ==>
        logged == old(logged) + {BBlock(sb, r.value), r.value} + (if k > NDIRECT then {ip.addrs[NDIRECT]} else {})
    {
      ghost var blk0, addrs0, owner0 := blk, ip.addrs, owner;
      r := Balloc();
      if r.None? {
        return;
      }
      var a := r.value;
      assert CanGrow(sb, blk0, owner0, ip.inum, addrs0, k, a);
      hide DiskFull, SlotAddr, CanGrow, BitmapOk, OwnOk, SameBytes, OthersSame, SlotsSameBut, Used, UsedBelow, Recorded;
      GrowKeepsOwners(sb, blk0, owner0, ip.inum, addrs0, k, a);
      GrowKeepsBytes(sb, blk0, owner0, ip.inum, addrs0, k, a);
      GrowLeavesOthers(sb, blk0, owner0, ip.inum, addrs0, k, a);
      GrownSlots(sb, blk0, owner0, ip.inum, addrs0, k, a);
      if k <= NDIRECT {
        ip.addrs := ip.addrs[k := a];
      } else {
        var i := ip.addrs[NDIRECT];
        var entered: Block := PutWord(blk[i], k - NDIRECT - 1, a);
        LogWrite(i, entered);
      }
      assert blk == Grown(sb, blk0, addrs0, k, a) && ip.addrs == GrownAddrs(addrs0, k, a);
      owner := owner[a := Slot(ip.inum, k)];
    }

    /** bmap: the block that holds file block bn, allocated if it is not there; "out of range" is the
      * precondition.  bm is the set of bitmap blocks logged, one for each of the allocs allocations.
      */
    method Bmap(ip: Inode, bn: nat) returns (r: Option<nat>, ghost bm: set<nat>, ghost allocs: nat)
      requires Recorded()
      requires Holding(ip) && bn < MAXFILE
      modifies this`blk, this`logged, this`owner, ip`addrs
      ensures Recorded()
      ensures r.None? ==> DiskFull(sb, blk)
      ensures r.Some? ==> Holding(ip) && |ip.addrs| == NDIRECT + 1 && r.value == FileBlock(blk, ip.addrs, bn) != 0
      ensures FileBlock(old(blk), old(ip.addrs), bn) != 0 ==>
        r.Some? && allocs == 0 && blk == old(blk) && ip.addrs == old(ip.addrs) && owner == old(owner) && logged == old(logged)
      ensures r.Some? ==> SameBytes(old(blk), old(ip.addrs), blk, ip.addrs)
      ensures r.Some? ==> OthersSame(sb, old(blk), old(owner), blk, owner, ip.inum)
      ensures r.Some? ==> SlotsAfterBmap(old(blk), old(ip.addrs), blk, ip.addrs, bn)
      ensures r.Some? ==>
        logged <= old(logged) + bm + {r.value} + (if bn < NDIRECT then {} else {ip.addrs[NDIRECT]})
      ensures |bm| <= allocs
      ensures r.Some? ==> allocs <= 1 + (if bn >= NDIRECT && old(ip.addrs)[NDIRECT] == 0 then 1 else 0)
    {
      hide BitmapOk, OwnOk, SameBytes, OthersSame, SlotsAfterBmap, DiskFull, Balloced, Recorded;
      ghost var blk0, addrs0, owner0 := blk, ip.addrs, owner;
      HeldSlots(ip);
      bm, allocs := {}, 0;
      if bn < NDIRECT {
        if ip.addrs[bn] == 0 {
          r := Fill(ip, bn);
          if r.Some? {
            HeldSlots(ip);
            bm, allocs := {BBlock(sb, r.value)}, 1;
            SlotsAfterOne(blk0, addrs0, blk, ip.addrs, bn);
          }
        } else {
          r := Some(ip.addrs[bn]);
          NothingChanged(sb, blk, owner, ip.inum, ip.addrs, bn);
        }
        return;
      }
      r, bm, allocs := BmapIndirect(ip, bn);
    }

    /** bmap's indirect half. */
    method BmapIndirect(ip: Inode, bn: nat) returns (r: Option<nat>, ghost bm: set<nat>, ghost allocs: nat)
      requires Recorded()
      requires Holding(ip) && NDIRECT <= bn < MAXFILE
      modifies this`blk, this`logged, this`owner, ip`addrs
      ensures Recorded()
      ensures r.None? ==> DiskFull(sb, blk)
      ensures r.Some? ==> Holding(ip) && |ip.addrs| == NDIRECT + 1 && r.value == FileBlock(blk, ip.addrs, bn) != 0
      ensures FileBlock(old(blk), old(ip.addrs), bn) != 0 ==>
        r.Some? && allocs == 0 && blk == old(blk) && ip.addrs == old(ip.addrs) && owner == old(owner) && logged == old(logged)
      ensures r.Some? ==> SameBytes(old(blk), old(ip.addrs), blk, ip.addrs)
      ensures r.Some? ==> OthersSame(sb, old(blk), old(owner), blk, owner, ip.inum)
      ensures r.Some? ==> SlotsAfterBmap(old(blk), old(ip.addrs), blk, ip.addrs, bn)
      ensures r.Some? ==> logged <= old(logged) + bm + {r.value} + {ip.addrs[NDIRECT]}
      ensures |bm| <= allocs
      ensures r.Some? ==> allocs <= 1 + (if old(ip.addrs)[NDIRECT] == 0 then 1 else 0)
    {
      hide BitmapOk, OwnOk, SameBytes, OthersSame, SlotsAfterBmap, DiskFull, Balloced, Recorded;
      ghost var blk0, addrs0, owner0 := blk, ip.addrs, owner;
      HeldSlots(ip);
      bm, allocs := {}, 0;
      assert SlotAddr(blk, ip.addrs, NDIRECT) == ip.addrs[NDIRECT];
      if ip.addrs[NDIRECT] == 0 {
        r := Fill(ip, NDIRECT);
        if r.None? {
          return;
        }
        HeldSlots(ip);
        bm, allocs := {BBlock(sb, r.value)}, 1;
        ghost var blk1, addrs1, owner1, l1 := blk, ip.addrs, owner, logged;
        assert SlotAddr(blk1, addrs1, SlotOf(bn)) == 0;
        r := Fill(ip, SlotOf(bn));
        if r.Some? {
          HeldSlots(ip);
          bm, allocs := bm + {BBlock(sb, r.value)}, 2;
          SlotsAfterTwo(blk0, addrs0, blk1, addrs1, blk, ip.addrs, bn);
          SameBytesTrans(blk0, addrs0, blk1, addrs1, blk, ip.addrs);
          OthersTrans(sb, blk0, owner0, blk1, owner1, blk, owner, ip.inum);
          assert SlotAddr(blk, ip.addrs, NDIRECT) == SlotAddr(blk1, addrs1, NDIRECT);
        }
        return;
      }
      SlotOwned(sb, blk, owner, ip.inum, ip.addrs, NDIRECT);
      var a := WordAt(blk[ip.addrs[NDIRECT]], bn - NDIRECT);
      assert a == FileBlock(blk, ip.addrs, bn);
      if a == 0 {
        r := Fill(ip, SlotOf(bn));
        if r.Some? {
          HeldSlots(ip);
          bm, allocs := {BBlock(sb, r.value)}, 1;
          SlotsAfterOne(blk0, addrs0, blk, ip.addrs, bn);
        }
      } else {
        r := Some(a);
        NothingChanged(sb, blk, owner, ip.inum, ip.addrs, bn);
      }
    }

    /** iupdate: the in-memory inode replaces its copy in the inode block. */
    method Iupdate(ip: Inode)
      requires Recorded()
      requires Disk(sb, blk) && ip.inum < sb.ninodes && |ip.addrs| == NDIRECT + 1
      modifies this`blk, this`logged
      ensures Recorded()
      ensures blk == Iupdated(sb, old(blk), ip.inum, ip.Din())
      ensures logged == old(logged) + {IBlock(sb, ip.inum)}
    {
      var b := IBlock(sb, ip.inum);
      var put: Block := PutDinode(blk[b], ip.inum % IPB, ip.Din());
      LogWrite(b, put);
    }

    /** Part-way through itrunc: of the inode as it was in (blk0, addrs0) the slots in done are freed. */
    ghost predicate Truncating(blk0: seq<Block>, owner0: map<nat, Slot>, inum: nat, addrs0: seq<Word>, done: set<nat>)
      reads this
    {
      && BitmapOk(sb, blk0, owner0) && OwnOk(blk0, owner0, inum, addrs0)
      && BitmapOk(sb, blk, owner) && OnlyBitmap(sb, blk0, blk) && owner == Dropped(owner0, inum, done)
    }

    /** "if(addr) bfree(addr)", where addr is the block in slot k. */
    method Release(a: nat, ghost blk0: seq<Block>, ghost owner0: map<nat, Slot>, ghost inum: nat,
                   ghost addrs0: seq<Word>, ghost done: set<nat>, ghost k: nat)
      requires Recorded()
      requires Truncating(blk0, owner0, inum, addrs0, done) && k < NSLOTS && k !in done
      requires a == SlotAddr(blk0, addrs0, k)
      modifies this`blk, this`logged, this`owner
      ensures Recorded()
      ensures Truncating(blk0, owner0, inum, addrs0, done + {k})
    {
      DropOne(sb, blk0, owner0, inum, addrs0, done, k);
      if a != 0 {
        BfreeKeepsBitmap(sb, blk, owner, a);
        BfreeOnlyBitmap(sb, blk0, blk, a);
        hide BitmapOk, OwnOk, OnlyBitmap, Dropped, Used;
        Bfree(a);
        owner := owner - {a};
      }
    }

    /** "if(ip->addrs[i]) bfree(ip->addrs[i]), ip->addrs[i] = 0". */
    method TruncSlot(ip: Inode, i: nat, ghost blk0: seq<Block>, ghost owner0: map<nat, Slot>, ghost addrs0: seq<Word>)
      requires Recorded()
      requires i < NDIRECT && |ip.addrs| == |addrs0| == NDIRECT + 1 && ip.addrs[i] == addrs0[i]
      requires Truncating(blk0, owner0, ip.inum, addrs0, Freed(i, 0))
      modifies this`blk, this`logged, this`owner, ip`addrs
      ensures Recorded()
      ensures Truncating(blk0, owner0, ip.inum, addrs0, Freed(i + 1, 0))
      ensures ip.addrs == old(ip.addrs)[i := 0]
    {
      hide Truncating, Freed, Recorded;
      FreedSteps(i, 0);
      NotYetFreed(i, 0);
      Release(ip.addrs[i], blk0, owner0, ip.inum, addrs0, Freed(i, 0), i);
      if ip.addrs[i] != 0 {
        ip.addrs := ip.addrs[i := 0];
      }
    }

    /** itrunc's loop over the direct blocks. */
    method TruncDirect(ip: Inode, ghost blk0: seq<Block>, ghost owner0: map<nat, Slot>, ghost addrs0: seq<Word>)
      requires Recorded()
      requires addrs0 == ip.addrs && Truncating(blk0, owner0, ip.inum, addrs0, Freed(0, 0))
      modifies this`blk, this`logged, this`owner, ip`addrs
      ensures Recorded()
      ensures Truncating(blk0, owner0, ip.inum, addrs0, Freed(NDIRECT, 0))
      ensures |ip.addrs| == NDIRECT + 1 && ip.addrs[NDIRECT] == addrs0[NDIRECT]
      ensures forall i :: 0 <= i < NDIRECT ==> ip.addrs[i] == 0
    {
      assert |ip.addrs| == NDIRECT + 1;
      hide Truncating, Freed, Recorded;
      var i := 0;
      while i < NDIRECT
        invariant 0 <= i <= NDIRECT && Recorded()
        invariant Truncating(blk0, owner0, ip.inum, addrs0, Freed(i, 0))
        invariant |ip.addrs| == NDIRECT + 1
        invariant forall j :: i <= j <= NDIRECT ==> ip.addrs[j] == addrs0[j]
        invariant forall j :: 0 <= j < i ==> ip.addrs[j] == 0
      {
        TruncSlot(ip, i, blk0, owner0, addrs0);
        i := i + 1;
      }
    }

    /** The indirect block's buffer keeps its contents while itrunc frees the entries. */
    lemma IndirectStays(blk0: seq<Block>, owner0: map<nat, Slot>, inum: nat, addrs0: seq<Word>, done: set<nat>)
      requires Truncating(blk0, owner0, inum, addrs0, done) && addrs0[NDIRECT] != 0
      ensures addrs0[NDIRECT] < |blk|
      ensures SlotAddr(blk0, addrs0, NDIRECT) == addrs0[NDIRECT]
      ensures forall j :: 0 <= j < NINDIRECT ==>
        WordAt(blk[addrs0[NDIRECT]], j) == SlotAddr(blk0, addrs0, NDIRECT + 1 + j)
    {
      SlotOwned(sb, blk0, owner0, inum, addrs0, NDIRECT);
    }

    /** itrunc's indirect half: the entries, then the indirect block itself. */
    method TruncIndirect(ip: Inode, ghost blk0: seq<Block>, ghost owner0: map<nat, Slot>, ghost addrs0: seq<Word>)
      requires Recorded()
      requires Truncating(blk0, owner0, ip.inum, addrs0, Freed(NDIRECT, 0))
      requires |ip.addrs| == |addrs0| == NDIRECT + 1 && ip.addrs[NDIRECT] == addrs0[NDIRECT]
      modifies this`blk, this`logged, this`owner, ip`addrs
      ensures Recorded()
      ensures Truncating(blk0, owner0, ip.inum, addrs0, Freed(NDIRECT + 1, NINDIRECT))
      ensures ip.addrs == old(ip.addrs)[NDIRECT := 0]
    {
      hide Truncating, Freed, SlotAddr, Recorded;
      if ip.addrs[NDIRECT] != 0 {
        IndirectStays(blk0, owner0, ip.inum, addrs0, Freed(NDIRECT, 0));
        var bp := blk[ip.addrs[NDIRECT]];
        var j := 0;
        while j < NINDIRECT
          invariant 0 <= j <= NINDIRECT && ip.addrs == old(ip.addrs) && Recorded()
          invariant Truncating(blk0, owner0, ip.inum, addrs0, Freed(NDIRECT, j))
        {
          FreedSteps(NDIRECT, j);
          NotYetFreed(NDIRECT, j);
          Release(WordAt(bp, j), blk0, owner0, ip.inum, addrs0, Freed(NDIRECT, j), NDIRECT + 1 + j);
          j := j + 1;
        }
        FreedSteps(NDIRECT, NINDIRECT);
        NotYetFreed(NDIRECT, NINDIRECT);
        Release(ip.addrs[NDIRECT], blk0, owner0, ip.inum, addrs0, Freed(NDIRECT, NINDIRECT), NDIRECT);
        ip.addrs := ip.addrs[NDIRECT := 0];
      } else {
        NoIndirect(blk0, owner0, ip.inum, addrs0);
      }
    }

    lemma NoIndirect(blk0: seq<Block>, owner0: map<nat, Slot>, inum: nat, addrs0: seq<Word>)
      requires |addrs0| == NDIRECT + 1 && addrs0[NDIRECT] == 0
      requires Truncating(blk0, owner0, inum, addrs0, Freed(NDIRECT, 0))
      ensures Truncating(blk0, owner0, inum, addrs0, Freed(NDIRECT + 1, NINDIRECT))
    {
      DropNothing(sb, blk0, owner0, inum, addrs0, Freed(NDIRECT, 0), Freed(NDIRECT + 1, NINDIRECT));
    }

    /** itrunc: the inode ends empty and exactly its blocks are freed; every other file is intact. */
    method Itrunc(ip: Inode)
      requires Recorded()
      requires Clean(ip)
      modifies this`blk, this`logged, this`owner, ip`addrs, ip`size
      ensures Recorded()
      ensures Clean(ip) && ip.size == 0 && ip.addrs == NO_BLOCKS
      ensures forall a :: a in owner <==> a in old(owner) && old(owner)[a].inum != ip.inum
      ensures OtherFilesSame(sb, old(blk), blk, ip.inum)
    {
      ghost var blk0, owner0, addrs0 := blk, owner, ip.addrs;
      ghost var all := Freed(NDIRECT + 1, NINDIRECT);
      assert Truncating(blk0, owner0, ip.inum, addrs0, Freed(0, 0)) by {
        StartTruncating(ip);
      }
      hide Truncating, BitmapOk, OwnOk, OnlyBitmap, Dropped, FsOk, Freed, OtherFilesSame, Recorded;
      TruncDirect(ip, blk0, owner0, addrs0);
      TruncIndirect(ip, blk0, owner0, addrs0);
      EndTruncating(blk0, owner0, ip.inum, addrs0);
      ip.size := 0;
      assert ip.Din().addrs == NO_BLOCKS;
      WriteBackRestores(sb, blk0, owner0, blk, owner, ip.inum, ip.Din());
      Iupdate(ip);
    }

    lemma StartTruncating(ip: Inode)
      requires Clean(ip)
      ensures Truncating(blk, owner, ip.inum, ip.addrs, Freed(0, 0))
    {
      assert OwnOk(blk, owner, ip.inum, DinodeOn(sb, blk, ip.inum).addrs);
      DropNothing(sb, blk, owner, ip.inum, ip.addrs, {}, Freed(0, 0));
      assert Dropped(owner, ip.inum, {}) == owner;
    }

    lemma EndTruncating(blk0: seq<Block>, owner0: map<nat, Slot>, inum: nat, addrs0: seq<Word>)
      requires Truncating(blk0, owner0, inum, addrs0, Freed(NDIRECT + 1, NINDIRECT))
      ensures BitmapOk(sb, blk, owner) && OwnOk(blk, owner, inum, NO_BLOCKS)
      ensures OthersSame(sb, blk0, owner0, blk, owner, inum)
      ensures forall a :: a in owner <==> a in owner0 && owner0[a].inum != inum
    {
      var all := Freed(NDIRECT + 1, NINDIRECT);
      AllDropped(sb, blk0, owner0, blk, inum, addrs0, all);
      DroppedLeavesOthers(sb, blk0, owner0, blk, inum, all);
    }

    /** readi's copy loop, for a range inside the file. */
    method ReadBlocks(ip: Inode, off: nat, n: nat) returns (panic: bool, dst: seq<Byte>)
      requires Recorded()
      requires Holding(ip) && off + n <= ip.size <= MAXFILE * BSIZE
      modifies this`blk, this`logged, this`owner, ip`addrs
      ensures Recorded()
      ensures panic ==> DiskFull(sb, blk) && !HoleFree(old(blk), old(ip.addrs), ip.size)
      ensures !panic ==> Holding(ip) && SameBytes(old(blk), old(ip.addrs), blk, ip.addrs)
      ensures !panic ==> OthersSame(sb, old(blk), old(owner), blk, owner, ip.inum)
      ensures !panic ==> dst == Bytes(old(blk), old(ip.addrs), off, off + n)
      ensures HoleFree(old(blk), old(ip.addrs), ip.size) ==>
        blk == old(blk) && ip.addrs == old(ip.addrs) && owner == old(owner) && logged == old(logged)
    {
      hide BitmapOk, OwnOk, SameBytes, OthersSame, SlotsAfterBmap, DiskFull, HoleFree, FileBlock, Bytes, Recorded;
      panic, dst := false, [];
      ghost var blk0, addrs0, owner0 := blk, ip.addrs, owner;
      HeldSlots(ip);
      NothingChanged(sb, blk, owner, ip.inum, ip.addrs, 0);
      assert Bytes(blk0, addrs0, off, off) == [];
      var tot, o := 0, off;
      while tot < n
        invariant 0 <= tot <= n && o == off + tot && Recorded()
        invariant Holding(ip) && |ip.addrs| == NDIRECT + 1 && SameBytes(blk0, addrs0, blk, ip.addrs)
        invariant OthersSame(sb, blk0, owner0, blk, owner, ip.inum)
        invariant dst == Bytes(blk0, addrs0, off, o)
        invariant HoleFree(blk0, addrs0, ip.size) ==>
          blk == blk0 && ip.addrs == addrs0 && owner == owner0 && logged == old(logged)
      {
        ghost var blk1, addrs1, owner1 := blk, ip.addrs, owner;
        if HoleFree(blk0, addrs0, ip.size) {
          HoleFreeHas(blk0, addrs0, ip.size, o);
        }
        var r, bm, allocs := Bmap(ip, o / BSIZE);
        if r.None? {
          return true, [];
        }
        var m := Min(n - tot, BSIZE - o % BSIZE);
        OthersTrans(sb, blk0, owner0, blk1, owner1, blk, owner, ip.inum);
        SameBytesTrans(blk0, addrs0, blk1, addrs1, blk, ip.addrs);
        ReadChunk(sb, blk0, addrs0, blk, owner, ip.inum, ip.addrs, off, o, m);
        dst := dst + blk[r.value].bytes[o % BSIZE..o % BSIZE + m];
        tot, o := tot + m, o + m;
      }
    }

    /** "off + n < off" in 32-bit arithmetic, the test readi and writei share. */
    predicate Wraps(off: nat, n: nat) {
      (off + n) % U32 < off
    }

    lemma WrapsExactly(off: nat, n: nat)
      requires off < U32 && n < U32
      ensures Wraps(off, n) <==> off + n >= U32
    {
    }

    /** readi on a file; a device inode is not modelled.  The bytes read are the slice of the file
      * clipped to its size, and a hole-free inode is read without allocating anything.
      */
    method Readi(ip: Inode, off: nat, n: nat) returns (panic: bool, ret: int, dst: seq<Byte>)
      requires Recorded()
      requires Holding(ip) && ip.size <= MAXFILE * BSIZE && off < U32 && n < U32
      modifies this`blk, this`logged, this`owner, ip`addrs
      ensures Recorded()
      ensures panic ==> DiskFull(sb, blk) && !HoleFree(old(blk), old(ip.addrs), ip.size)
      ensures !panic ==> Holding(ip) && SameBytes(old(blk), old(ip.addrs), blk, ip.addrs)
      ensures !panic ==> OthersSame(sb, old(blk), old(owner), blk, owner, ip.inum)
      ensures !panic && (off > ip.size || off + n >= U32) ==> ret == -1 && dst == []
      ensures !panic && off <= ip.size && off + n < U32 ==>
        ret == Min(n, ip.size - off) && dst == Bytes(old(blk), old(ip.addrs), off, off + ret)
      ensures HoleFree(old(blk), old(ip.addrs), ip.size) ==>
        blk == old(blk) && ip.addrs == old(ip.addrs) && owner == old(owner) && logged == old(logged)
    {
      assert |ip.addrs| == NDIRECT + 1;
      hide BitmapOk, OwnOk, SameBytes, OthersSame, DiskFull, HoleFree, Bytes, Recorded, SlotsAfterBmap, FileBlock,
        Wraps;
      WrapsExactly(off, n);
      if off > ip.size || Wraps(off, n) {
        NothingChanged(sb, blk, owner, ip.inum, ip.addrs, 0);
        return false, -1, [];
      }
      ret := if off + n > ip.size then ip.size - off else n;
      panic, dst := ReadBlocks(ip, off, ret);
    }

    /** Part-way through writei (see FsModel.Writing). */
    ghost predicate Copying(ip: Inode, blk0: seq<Block>, addrs0: seq<Word>, owner0: map<nat, Slot>, off: nat,
                            prefix: seq<Byte>, done: nat, bms: set<nat>, dats: set<nat>)
      reads this, ip
    {
      Writing(sb, blk0, addrs0, owner0, off, prefix, done, blk, owner, ip.inum, ip.addrs, logged, bms, dats)
    }

    /** writei's copy loop.  src ends up at off, no other byte of the file changes, and what is logged
      * is bounded by the blocks touched and the blocks that were missing.
      */
    method WriteBlocks(ip: Inode, src: seq<Byte>, off: nat) returns (panic: bool)
      requires Recorded()
      requires Holding(ip) && off + |src| <= MAXFILE * BSIZE && logged == {}
      modifies this`blk, this`logged, this`owner, ip`addrs
      ensures Recorded()
      ensures panic ==> DiskFull(sb, blk)
      ensures !panic ==> Holding(ip) && |ip.addrs| == NDIRECT + 1
      ensures !panic ==> Written(old(blk), old(ip.addrs), off, src, blk, ip.addrs)
      ensures !panic ==> OthersSame(sb, old(blk), old(owner), blk, owner, ip.inum)
      ensures !panic && src != [] ==> |logged| < WriteCost(old(blk), old(ip.addrs), off, |src|)
      ensures !panic ==> Filled(old(blk), old(ip.addrs), off / BSIZE, Touched(off, |src|), blk, ip.addrs)
      ensures HoleFree(old(blk), old(ip.addrs), ip.size) && off + |src| <= ip.size ==>
        !panic && owner == old(owner) && ip.addrs == old(ip.addrs)
      ensures !panic && src == [] ==> logged == {} && blk == old(blk) && owner == old(owner) && ip.addrs == old(ip.addrs)
    {
      hide Copying, DiskFull, Touched, HoleFree, BitmapOk, OwnOk, Written, OthersSame, Filled, WriteCost, Recorded;
      panic := false;
      ghost var blk0, addrs0, owner0 := blk, ip.addrs, owner;
      ghost var done, bms, dats: set<nat> := 0, {}, {};
      HeldSlots(ip);
      ghost var inside := HoleFree(blk0, addrs0, ip.size) && off + |src| <= ip.size;
      StartCopying(ip, src, off);
      var tot := 0;
      while tot < |src|
        invariant 0 <= tot <= |src| && Recorded()
        invariant Copying(ip, blk0, addrs0, owner0, off, src[..tot], done, bms, dats)
        invariant tot < |src| ==> (off + tot) / BSIZE == off / BSIZE + done
        invariant tot == |src| ==> done == Touched(off, |src|)
        invariant src == [] ==> logged == {} && blk == blk0 && owner == owner0 && ip.addrs == addrs0
        invariant inside ==> owner == owner0 && ip.addrs == addrs0
      {
        var m := Min(|src| - tot, BSIZE - (off + tot) % BSIZE);
        panic, bms, dats := WriteBlock(ip, src, off, tot, m, blk0, addrs0, owner0, done, bms, dats);
        if panic {
          return;
        }
        NextBlock(off, |src|, tot, m, done);
        tot, done := tot + m, done + 1;
      }
      assert src[..tot] == src;
      CopyingDone(ip, blk0, addrs0, owner0, off, src, bms, dats);
    }

    lemma StartCopying(ip: Inode, src: seq<Byte>, off: nat)
      requires Holding(ip) && off + |src| <= MAXFILE * BSIZE && logged == {}
      ensures Copying(ip, blk, ip.addrs, owner, off, src[..0], 0, {}, {}) && Touched(off, 0) == 0 && |ip.addrs| == NDIRECT + 1
    {
      hide Writing;
      StartWriting(sb, blk, owner, ip.inum, ip.addrs, off);
      assert src[..0] == [];
    }

    lemma CopyingDone(ip: Inode, blk0: seq<Block>, addrs0: seq<Word>, owner0: map<nat, Slot>, off: nat,
                      src: seq<Byte>, bms: set<nat>, dats: set<nat>)
      requires Copying(ip, blk0, addrs0, owner0, off, src, Touched(off, |src|), bms, dats)
      requires off + |src| <= MAXFILE * BSIZE
      ensures |addrs0| == |ip.addrs| == NDIRECT + 1 && Holding(ip)
      ensures Written(blk0, addrs0, off, src, blk, ip.addrs) && OthersSame(sb, blk0, owner0, blk, owner, ip.inum)
      ensures Filled(blk0, addrs0, off / BSIZE, Touched(off, |src|), blk, ip.addrs)
      ensures src != [] ==> |logged| < WriteCost(blk0, addrs0, off, |src|)
    {
      DoneWriting(sb, blk0, addrs0, owner0, off, src, blk, owner, ip.inum, ip.addrs, logged, bms, dats);
    }

    /** One pass of writei's loop: bread(bmap()), memmove of m bytes, log_write. */
    method WriteBlock(ip: Inode, src: seq<Byte>, off: nat, tot: nat, m: nat,
                      ghost blk0: seq<Block>, ghost addrs0: seq<Word>, ghost owner0: map<nat, Slot>,
                      ghost done: nat, ghost bms: set<nat>, ghost dats: set<nat>)
      returns (panic: bool, ghost bms': set<nat>, ghost dats': set<nat>)
      requires Recorded()
      requires tot < |src| && off + |src| <= MAXFILE * BSIZE && (off + tot) / BSIZE == off / BSIZE + done
      requires m == Min(|src| - tot, BSIZE - (off + tot) % BSIZE)
      requires Copying(ip, blk0, addrs0, owner0, off, src[..tot], done, bms, dats)
      modifies this`blk, this`logged, this`owner, ip`addrs
      ensures Recorded()
      ensures panic ==> DiskFull(sb, blk)
      ensures !panic ==> Copying(ip, blk0, addrs0, owner0, off, src[..tot + m], done + 1, bms', dats')
      ensures |addrs0| == NDIRECT + 1
      ensures HoleFree(blk0, addrs0, ip.size) && off + |src| <= ip.size ==>
        !panic && ip.addrs == old(ip.addrs) && owner == old(owner)
    {
      var o := off + tot;
      InsideHasBlock(sb, blk0, addrs0, owner0, off, src[..tot], done, blk, owner, ip.inum, ip.addrs, logged, bms, dats,
                     ip.size, o);
      WritingFacts(sb, blk0, addrs0, owner0, off, src[..tot], done, blk, owner, ip.inum, ip.addrs, logged, bms, dats);
      panic, bms', dats' := WriteBlockAt(ip, src, tot, m, o / BSIZE, o % BSIZE, off, blk0, addrs0, owner0, done, bms, dats);
    }

    method WriteBlockAt(ip: Inode, src: seq<Byte>, tot: nat, m: nat, bn: nat, at: nat,
                        ghost off: nat, ghost blk0: seq<Block>, ghost addrs0: seq<Word>, ghost owner0: map<nat, Slot>,
                        ghost done: nat, ghost bms: set<nat>, ghost dats: set<nat>)
      returns (panic: bool, ghost bms': set<nat>, ghost dats': set<nat>)
      requires Recorded()
      requires tot + m <= |src| && bn < MAXFILE && at + m <= BSIZE && at < BSIZE && |ip.addrs| == NDIRECT + 1
      requires off + tot == bn * BSIZE + at && bn == off / BSIZE + done
      requires Copying(ip, blk0, addrs0, owner0, off, src[..tot], done, bms, dats)
      modifies this`blk, this`logged, this`owner, ip`addrs
      ensures Recorded()
      ensures panic ==> DiskFull(sb, blk)
      ensures !panic ==> Copying(ip, blk0, addrs0, owner0, off, src[..tot + m], done + 1, bms', dats')
      ensures FileBlock(old(blk), old(ip.addrs), bn) != 0 ==> !panic && ip.addrs == old(ip.addrs) && owner == old(owner)
    {
      panic, bms', dats' := false, bms, dats;
      ghost var blk1, addrs1, owner1, l1 := blk, ip.addrs, owner, logged;
      assert Holding(ip);
      hide Writing, BitmapOk, OwnOk, SameBytes, OthersSame, SlotsAfterBmap, DiskFull, FileBlock, Splice, Recorded;
      var r, bm, allocs := Bmap(ip, bn);
      if r.None? {
        return true, bms, dats;
      }
      bms', dats' := bms + bm, dats + {r.value};
      WritingAfterBmap(sb, blk0, addrs0, owner0, off, src[..tot], done, blk1, owner1, ip.inum, addrs1, l1, bms, dats,
                       blk, owner, ip.addrs, logged, bm, allocs, r.value);
      WritingAfterCopy(sb, blk0, addrs0, owner0, off, src, tot, m, bn, at, done + 1, blk, owner, ip.inum, ip.addrs,
                       logged, bms', dats', r.value);
      var b: Block := Splice(blk[r.value], at, src[tot..tot + m]);
      LogWrite(r.value, b);
    }

    /** writei's three early returns. */
    predicate Refused(ip: Inode, off: nat, n: nat)
      reads ip
    {
      off > ip.size || Wraps(off, n) || (off + n) % U32 > MAXFILE * BSIZE
    }

    /** What the early returns refuse: a start past the end, and an end past the largest file. */
    lemma RefusedExactly(ip: Inode, off: nat, n: nat)
      requires off < U32 && n < U32
      ensures Refused(ip, off, n) <==> off > ip.size || off + n > MAXFILE * BSIZE
    {
      WrapsExactly(off, n);
    }

    /** writei on a file; a device inode is not modelled.  Refused writes change nothing.  Otherwise
      * exactly the bytes [off, off + n) are replaced and the size is extended to cover them.  A
      * hole-free file stays hole-free, the disk ends in a good state with every other file intact,
      * and the blocks logged are bounded by WriteCost.
      */
    method Writei(ip: Inode, src: seq<Byte>, off: nat) returns (panic: bool, ret: int)
      requires Recorded()
      requires Clean(ip) && ip.size <= MAXFILE * BSIZE && off < U32 && |src| < U32 && logged == {}
      modifies this`blk, this`logged, this`owner, ip`addrs, ip`size
      ensures Recorded()
      ensures panic ==> DiskFull(sb, blk)
      ensures old(Refused(ip, off, |src|)) ==>
        !panic && ret == -1 && blk == old(blk) && owner == old(owner) && logged == {} && ip.Din() == old(ip.Din())
      ensures off > old(ip.size) || off + |src| > MAXFILE * BSIZE ==> !panic && ret == -1
      ensures off <= old(ip.size) && off + |src| <= MAXFILE * BSIZE ==> !old(Refused(ip, off, |src|)) && (!panic ==> ret == |src|)
      ensures !panic && !old(Refused(ip, off, |src|)) ==>
        && ret == |src| && |ip.addrs| == NDIRECT + 1
        && ip.Din() == old(ip.Din()).(addrs := ip.addrs, size := Max(old(ip.size), off + |src|))
        && Written(old(blk), old(ip.addrs), off, src, blk, ip.addrs)
        && |logged| <= WriteCost(old(blk), old(ip.addrs), off, |src|)
      ensures !panic && HoleFree(old(blk), old(ip.addrs), old(ip.size)) ==>
        Clean(ip) && HoleFree(blk, ip.addrs, ip.size) && OtherFilesSame(sb, old(blk), blk, ip.inum)
    {
      ghost var blk0, addrs0, owner0, size0 := blk, ip.addrs, owner, ip.size;
      assert Holding(ip) && |ip.addrs| == NDIRECT + 1 by {
        CleanHolds(ip);
      }
      RefusedExactly(ip, off, |src|);
      if off > ip.size || Wraps(off, |src|) {
        return false, -1;
      }
      if off + |src| > MAXFILE * BSIZE {
        return false, -1;
      }
      hide FsOk, BitmapOk, OwnOk, OthersSame, OtherFilesSame, Written, Filled, HoleFree, WriteCost, DiskFull;
      panic, ret := WriteAccepted(ip, src, off);
    }

    /** writei once the request has been accepted. */
    method WriteAccepted(ip: Inode, src: seq<Byte>, off: nat) returns (panic: bool, ret: int)
      requires Recorded()
      requires Clean(ip) && Holding(ip) && |ip.addrs| == NDIRECT + 1 && logged == {}
      requires off <= ip.size && off + |src| <= MAXFILE * BSIZE && |src| < U32
      modifies this`blk, this`logged, this`owner, ip`addrs, ip`size
      ensures Recorded()
      ensures panic ==> DiskFull(sb, blk)
      ensures !panic ==>
        && ret == |src| && |ip.addrs| == NDIRECT + 1
        && ip.Din() == old(ip.Din()).(addrs := ip.addrs, size := Max(old(ip.size), off + |src|))
        && Written(old(blk), old(ip.addrs), off, src, blk, ip.addrs)
        && |logged| <= WriteCost(old(blk), old(ip.addrs), off, |src|)
      ensures !panic && HoleFree(old(blk), old(ip.addrs), old(ip.size)) ==>
        Clean(ip) && HoleFree(blk, ip.addrs, ip.size) && OtherFilesSame(sb, old(blk), blk, ip.inum)
    {
      ghost var blk0, addrs0, owner0, size0 := blk, ip.addrs, owner, ip.size;
      assert src == [] ==> WriteCost(blk0, addrs0, off, 0) == 0;
      hide FsOk, BitmapOk, OwnOk, OthersSame, OtherFilesSame, Written, Filled, HoleFree, WriteCost, DiskFull;
      panic := WriteBlocks(ip, src, off);
      if panic {
        return true, 0;
      }
      ret := |src|;
      if |src| > 0 && off + |src| > ip.size {
        ip.size := off + |src|;
        WriteGrew(sb, blk0, addrs0, owner0, off, src, size0, blk, owner, ip.inum, ip.Din());
        UnionBound(logged, {IBlock(sb, ip.inum)});
        Iupdate(ip);
      } else if HoleFree(blk0, addrs0, size0) {
        WriteInside(sb, blk0, owner0, off, src, size0, blk, ip.inum, ip.addrs);
      }
    }

    lemma CleanHolds(ip: Inode)
      requires Clean(ip)
      ensures Holding(ip) && |ip.addrs| == NDIRECT + 1
    {
      assert OwnOk(blk, owner, ip.inum, DinodeOn(sb, blk, ip.inum).addrs);
    }

    /** Part-way through filewrite: the first i bytes of data are in the file, from off0 on. */
    ghost predicate Progress(f: File, blk0: seq<Block>, addrs0: seq<Word>, off0: nat, data: seq<Byte>, i: nat)
      reads this, f, f.ip
    {
      && Clean(f.ip) && HoleFree(blk, f.ip.addrs, f.ip.size) && OtherFilesSame(sb, blk0, blk, f.ip.inum)
      && i <= |data| && f.off == off0 + i < U32 && |addrs0| == NDIRECT + 1
      && Written(blk0, addrs0, off0, data[..i], blk, f.ip.addrs)
    }

    lemma NoProgressYet(f: File, data: seq<Byte>)
      requires Clean(f.ip) && HoleFree(blk, f.ip.addrs, f.ip.size) && f.off < U32
      ensures Progress(f, blk, f.ip.addrs, f.off, data, 0)
    {
      CleanHolds(f.ip);
      NothingWrittenYet(sb, blk, f.ip.addrs, f.off, data, f.ip.inum);
    }

    /** filewrite's loop body: one chunk of n1 bytes in one operation; cost is how many distinct blocks
      * that operation logs.
      */
    method Chunk(f: File, data: seq<Byte>, i: nat, n1: nat, ghost blk0: seq<Block>, ghost addrs0: seq<Word>, ghost off0: nat)
      returns (panic: bool, r: int, ghost cost: nat)
      requires Progress(f, blk0, addrs0, off0, data, i) && 0 < n1 <= MAXCHUNK && i + n1 <= |data|
      modifies this`blk, this`logged, this`start, this`owner, f`off, f.ip`addrs, f.ip`size
      ensures start == old(blk) && Recorded()
      ensures panic ==> DiskFull(sb, blk)
      ensures !panic ==> r == -1 || r == n1
      ensures !panic && r == -1 ==> Progress(f, blk0, addrs0, off0, data, i) && Refused(f.ip, off0 + i, n1)
      ensures !panic && r == n1 ==> Progress(f, blk0, addrs0, off0, data, i + n1)
      ensures !panic ==> f.off == old(f.off) + (if r < 0 then 0 else n1)
      ensures !panic ==> (r == n1 <==> old(f.off) <= old(f.ip.size) && old(f.off) + n1 <= MAXFILE * BSIZE)
      ensures !panic ==> f.ip.size == if r < 0 then old(f.ip.size) else Max(old(f.ip.size), old(f.off) + n1)
      ensures cost == |logged| && (!panic ==> cost <= MAXOPBLOCKS)
    {
      ghost var blk1, addrs1, size1 := blk, f.ip.addrs, f.ip.size;
      CleanHolds(f.ip);
      assert size1 <= MAXFILE * BSIZE;
      hide FsOk, BitmapOk, OwnOk, OtherFilesSame, Written, HoleFree, WriteCost, DiskFull;
      logged, start := {}, blk;
      panic, r := Writei(f.ip, data[i..i + n1], f.off);
      cost := |logged|;
      if panic {
        return;
      }
      if r > 0 {
        ChunkFits(blk1, addrs1, size1, f.off, n1);
        OtherFilesTrans(sb, blk0, blk1, blk, f.ip.inum);
        WrittenTwice(blk0, addrs0, off0, data, i, n1, blk1, addrs1, blk, f.ip.addrs);
        f.off := f.off + r;
      }
    }

    /** There is an operation for every chunk of the n bytes written, and none logs too much. */
    ghost predicate Affordable(costs: seq<nat>, n: int) {
      n <= |costs| * MAXCHUNK && forall c :: 0 <= c < |costs| ==> costs[c] <= MAXOPBLOCKS
    }

    lemma AnotherChunk(costs: seq<nat>, n: nat, cost: nat, r: nat)
      requires Affordable(costs, n) && cost <= MAXOPBLOCKS && r <= MAXCHUNK
      ensures Affordable(costs + [cost], n + r)
    {
    }

    /** filewrite after i of n bytes, in the given number of chunks, of a file that had size0 bytes and now has size. */
    ghost predicate Along(size: nat, size0: nat, off0: nat, i: nat, n: nat, chunks: nat) {
      && size == (if i == 0 then size0 else Max(size0, off0 + i))
      && (i > 0 ==> off0 <= size0 && off0 + i <= MAXFILE * BSIZE)
      && (i < n ==> i == chunks * MAXCHUNK)
    }

    /** The outcome of filewrite: k of the n bytes are written. */
    ghost predicate Outcome(size0: nat, off0: nat, k: int, n: nat, chunks: nat) {
      && (k == n <==> n == 0 || (off0 <= size0 && off0 + n <= MAXFILE * BSIZE))
      && (k < n && off0 > size0 ==> k == 0)
      && (k < n && off0 <= size0 ==>
           chunks > 0 && k == (chunks - 1) * MAXCHUNK && off0 + k + Min(n - k, MAXCHUNK) > MAXFILE * BSIZE
           && (k > 0 ==> off0 + k <= MAXFILE * BSIZE))
    }

    lemma AlongMore(size: nat, size0: nat, off0: nat, i: nat, n: nat, chunks: nat, n1: nat)
      requires Along(size, size0, off0, i, n, chunks) && i < n && n1 == Min(n - i, MAXCHUNK)
      requires off0 + i <= size && off0 + i + n1 <= MAXFILE * BSIZE
      ensures Along(Max(size, off0 + i + n1), size0, off0, i + n1, n, chunks + 1)
    {
    }

    lemma AlongEnds(size: nat, size0: nat, off0: nat, i: nat, n: nat, chunks: nat)
      requires Along(size, size0, off0, i, n, chunks) && i <= n
      ensures i == n ==> Outcome(size0, off0, n, n, chunks)
      ensures i < n && !(off0 + i <= size && off0 + i + Min(n - i, MAXCHUNK) <= MAXFILE * BSIZE) ==>
        Outcome(size0, off0, i, n, chunks + 1)
    {
    }

    /** A pass of filewrite's loop, with what it has to do with the whole. */
    method NextChunk(f: File, data: seq<Byte>, i: nat, ghost blk0: seq<Block>, ghost addrs0: seq<Word>, ghost off0: nat,
                     ghost size0: nat, ghost costs: seq<nat>)
      returns (panic: bool, r: int, ghost costs': seq<nat>)
      requires i < |data| && Progress(f, blk0, addrs0, off0, data, i) && f.off == off0 + i
      requires Along(f.ip.size, size0, off0, i, |data|, |costs|) && Affordable(costs, i)
      modifies this`blk, this`logged, this`start, this`owner, f`off, f.ip`addrs, f.ip`size
      ensures panic ==> DiskFull(sb, blk)
      ensures !panic ==> r == -1 || 0 < r <= |data| - i
      ensures !panic && r == -1 ==> Progress(f, blk0, addrs0, off0, data, i) && f.off == off0 + i && Affordable(costs', i)
      ensures !panic && r == -1 ==> Outcome(size0, off0, i, |data|, |costs'|) && Refused(f.ip, f.off, Min(|data| - i, MAXCHUNK))
      ensures !panic && r != -1 ==> Progress(f, blk0, addrs0, off0, data, i + r) && f.off == off0 + i + r
      ensures !panic && r != -1 ==> Along(f.ip.size, size0, off0, i + r, |data|, |costs'|) && Affordable(costs', i + r)
    {
      hide Progress, DiskFull, Refused, Recorded, Clean, HoleFree, Affordable, Along, Outcome;
      ghost var size1 := f.ip.size;
      var n1 := Min(|data| - i, MAXCHUNK);
      ghost var cost;
      panic, r, cost := Chunk(f, data, i, n1, blk0, addrs0, off0);
      if panic {
        return true, -1, costs;
      }
      AnotherChunk(costs, i, cost, if r < 0 then 0 else n1);
      costs' := costs + [cost];
      if r < 0 {
        AlongEnds(size1, size0, off0, i, |data|, |costs|);
      } else {
        AlongMore(size1, size0, off0, i, |data|, |costs|, n1);
      }
    }

    /** filewrite on an inode.  The data is written up to the first chunk writei refuses: all of it, and ret is its
      * length, exactly when the offset is in the file and the end no further than the largest file; otherwise the whole
      * chunks before that end, and ret is -1.  "short filewrite" is unreachable, and no operation logs more than
      * MAXOPBLOCKS distinct blocks.
      */
    method Filewrite(f: File, data: seq<Byte>) returns (panic: bool, ret: int, ghost costs: seq<nat>)
      requires Clean(f.ip) && HoleFree(blk, f.ip.addrs, f.ip.size) && f.off < U32 && |data| < U32 / 2
      modifies this`blk, this`logged, this`start, this`owner, f`off, f.ip`addrs, f.ip`size
      ensures panic ==> DiskFull(sb, blk)
      ensures !panic ==> var k := f.off - old(f.off);
        && 0 <= k <= |data| && Progress(f, old(blk), old(f.ip.addrs), old(f.off), data, k)
        && ret == (if k == |data| then |data| else -1)
        && (k < |data| ==> Refused(f.ip, f.off, Min(|data| - k, MAXCHUNK)))
      ensures !panic ==> (ret == |data| <==> data == [] || (old(f.off) <= old(f.ip.size) && old(f.off) + |data| <= MAXFILE * BSIZE))
      ensures !panic ==> Outcome(old(f.ip.size), old(f.off), f.off - old(f.off), |data|, |costs|)
      ensures !panic ==> Affordable(costs, f.off - old(f.off))
    {
      hide Progress, DiskFull, Refused, Recorded, Clean, HoleFree, Affordable, Along, Outcome;
      panic, ret, costs := false, -1, [];
      ghost var blk0, addrs0, off0, size0 := blk, f.ip.addrs, f.off, f.ip.size;
      NoProgressYet(f, data);
      NothingAlong(size0, off0, |data|);
      var i := 0;
      while i < |data|
        invariant 0 <= i <= |data| && f.off == off0 + i && Progress(f, blk0, addrs0, off0, data, i)
        invariant Affordable(costs, i) && Along(f.ip.size, size0, off0, i, |data|, |costs|)
      {
        var r;
        panic, r, costs := NextChunk(f, data, i, blk0, addrs0, off0, size0, costs);
        if panic {
          return;
        }
        if r < 0 {
          OutcomeMeans(size0, off0, i, |data|, |costs|);
          return false, -1, costs;
        }
        i := i + r;
      }
      AlongEnds(f.ip.size, size0, off0, i, |data|, |costs|);
      OutcomeMeans(size0, off0, i, |data|, |costs|);
      ret := |data|;
    }

    lemma NothingAlong(size0: nat, off0: nat, n: nat)
      ensures Along(size0, size0, off0, 0, n, 0) && Affordable([], 0)
    {
    }

    lemma OutcomeMeans(size0: nat, off0: nat, k: int, n: nat, chunks: nat)
      requires Outcome(size0, off0, k, n, chunks)
      ensures k == n <==> n == 0 || (off0 <= size0 && off0 + n <= MAXFILE * BSIZE)
    {
    }
  }
}
