/** The buffer cache of bio.c.
  *
  * Each method below is one critical section (under bcache.lock, the buffer's sleep lock, or the
  * driver), so any sequence of calls by any number of processes is an interleaving of the original.
  * Buffers are numbered from 0; HEAD is bcache.head.
  */
module Bio {
  import opened Param
  import opened FsFormat

  const HEAD: nat := NBUF

  datatype Key = Key(dev: nat, blockno: nat)

  /** The key every buffer starts with. */
  const ZERO_KEY: Key := Key(0, 0)

  /** struct buf without its links: flags as two booleans, and the sleep lock's locked. */
  datatype Buf = Buf(key: Key, valid: bool, dirty: bool, locked: bool, refcnt: nat, data: Block)

  // ----- the ring

  /** The i-th node of the ring, starting and ending at the head. */
  function Node(order: seq<nat>, i: nat): nat
    requires i <= |order| + 1
  {
    if 0 < i <= |order| then order[i - 1] else HEAD
  }

  predicate LinkAt(next: seq<nat>, prev: seq<nat>, order: seq<nat>, i: nat)
    requires i <= |order|
  {
    var x, y := Node(order, i), Node(order, i + 1);
    x < |next| && y < |prev| && next[x] == y && prev[y] == x
  }

  predicate Distinct(order: seq<nat>) {
    forall i, j :: 0 <= i < j < |order| ==> order[i] != order[j]
  }

  /** next and prev are inverse to each other along one ring through the head and the buffers of order. */
  ghost predicate Ring(next: seq<nat>, prev: seq<nat>, order: seq<nat>) {
    && |next| == |prev| == NBUF + 1
    && (forall i :: 0 <= i < |order| ==> order[i] < NBUF) && Distinct(order)
    && (forall i :: 0 <= i <= |order| ==> LinkAt(next, prev, order, i))
  }

  lemma WithoutAt(order: seq<nat>, k: nat, i: nat)
    requires k < |order| && i <= |order|
    ensures |Without(order, k)| == |order| - 1
    ensures Node(Without(order, k), i) == if i <= k then Node(order, i) else Node(order, i + 1)
  {
  }

  lemma NodesApart(order: seq<nat>, i: nat, j: nat)
    requires i <= |order| && j <= |order| && Distinct(order) && forall i :: 0 <= i < |order| ==> order[i] < NBUF
    ensures Node(order, i) == Node(order, j) <==> i == j
  {
  }

  /** "b->next->prev = b->prev; b->prev->next = b->next" takes b out. */
  lemma UnlinkKeepsRing(next: seq<nat>, prev: seq<nat>, order: seq<nat>, k: nat)
    requires Ring(next, prev, order) && k < |order|
    ensures var b := order[k];
      b < NBUF && next[b] <= NBUF && prev[b] <= NBUF && Ring(next[prev[b] := next[b]], prev[next[b] := prev[b]], Without(order, k))
  {
    var b, order' := order[k], Without(order, k);
    assert LinkAt(next, prev, order, k) && LinkAt(next, prev, order, k + 1);
    var next', prev' := next[prev[b] := next[b]], prev[next[b] := prev[b]];
    forall i: nat | i <= |order'|
      ensures LinkAt(next', prev', order', i)
    {
      UnlinkedAt(next, prev, order, k, i);
    }
    hide LinkAt;
  }

  lemma UnlinkedAt(next: seq<nat>, prev: seq<nat>, order: seq<nat>, k: nat, i: nat)
    requires Ring(next, prev, order) && k < |order| && i <= |order| - 1
    ensures var b := order[k];
      && b < NBUF && next[b] <= NBUF && prev[b] <= NBUF
      && LinkAt(next[prev[b] := next[b]], prev[next[b] := prev[b]], Without(order, k), i)
  {
    assert LinkAt(next, prev, order, k) && LinkAt(next, prev, order, k + 1);
    assert LinkAt(next, prev, order, i) && (i + 1 <= |order| ==> LinkAt(next, prev, order, i + 1));
    var m := if i < k then i else i + 1;
    assert LinkAt(next, prev, order, m);
    WithoutAt(order, k, i);
    WithoutAt(order, k, i + 1);
    NodesApart(order, m, k);
    NodesApart(order, if m + 1 <= |order| then m + 1 else 0, if k + 2 <= |order| then k + 2 else 0);
  }

  /** The four assignments that put b at the front, in binit and brelse. */
  lemma PushKeepsRing(next: seq<nat>, prev: seq<nat>, order: seq<nat>, b: nat)
    requires Ring(next, prev, order) && b < NBUF && b !in order
    ensures next[HEAD] <= NBUF
    ensures Ring(next[b := next[HEAD]][HEAD := b], prev[b := HEAD][next[HEAD] := b], [b] + order)
  {
    assert LinkAt(next, prev, order, 0);
    var next', prev', order' := next[b := next[HEAD]][HEAD := b], prev[b := HEAD][next[HEAD] := b], [b] + order;
    forall i: nat | i <= |order'|
      ensures LinkAt(next', prev', order', i)
    {
      if i > 1 {
        assert LinkAt(next, prev, order, i - 1);
        NodesApart(order, i - 1, 0);
        NodesApart(order, if i <= |order| then i else 0, if 1 <= |order| then 1 else 0);
        assert Node(order', i) == Node(order, i - 1) && Node(order', i + 1) == Node(order, i);
      }
    }
  }

  /** All NBUF buffers are on the ring. */
  ghost predicate FullRing(next: seq<nat>, prev: seq<nat>, order: seq<nat>) {
    && Ring(next, prev, order) && |order| == NBUF
    && forall b :: 0 <= b < NBUF ==> b in order
  }

  /** The ring is in the order of the latest drop to refcnt 0, most recent first. */
  ghost predicate Recent(order: seq<nat>, stamp: seq<int>, clock: int) {
    && |stamp| == NBUF && (forall i :: 0 <= i < |order| ==> order[i] < NBUF)
    && (forall i, j :: 0 <= i < j < |order| ==> stamp[order[i]] > stamp[order[j]])
    && (forall b :: 0 <= b < NBUF ==> stamp[b] < clock)
  }

  /** Moving a buffer to the front, as brelse does when refcnt drops to 0. */
  lemma MoveToFront(next: seq<nat>, prev: seq<nat>, order: seq<nat>, k: nat, stamp: seq<int>, clock: int)
    requires FullRing(next, prev, order) && k < NBUF && Recent(order, stamp, clock)
    ensures order[k] < NBUF && next[order[k]] <= NBUF && prev[order[k]] <= NBUF
    ensures var b := order[k];
      var n1, p1 := next[prev[b] := next[b]], prev[next[b] := prev[b]];
      && n1[HEAD] <= NBUF
      && FullRing(n1[b := n1[HEAD]][HEAD := b], p1[b := HEAD][n1[HEAD] := b], [b] + Without(order, k))
      && Recent([b] + Without(order, k), stamp[b := clock], clock + 1)
  {
    var b := order[k];
    UnlinkKeepsRing(next, prev, order, k);
    var n1, p1 := next[prev[b] := next[b]], prev[next[b] := prev[b]];
    assert b !in Without(order, k);
    PushKeepsRing(n1, p1, Without(order, k), b);
    forall x: nat | x < NBUF
      ensures x in [b] + Without(order, k)
    {
      assert x in order;
      var i :| 0 <= i < |order| && order[i] == x;
      if i < k {
        assert Without(order, k)[i] == x;
      } else if i > k {
        assert Without(order, k)[i - 1] == x;
      }
    }
  }

  // ----- what the buffers hold

  /** No two buffers stand for one block, but for the key all start with. */
  ghost predicate Unique(bufs: seq<Buf>) {
    forall i, j :: 0 <= i < j < |bufs| && bufs[i].key == bufs[j].key ==> bufs[i].key == ZERO_KEY
  }

  /** refcnt counts the holder of the sleep lock and the others: past bget, or not yet through brelse. */
  ghost predicate RefsOk(bufs: seq<Buf>, others: seq<nat>) {
    |others| == |bufs| && forall i :: 0 <= i < |bufs| ==> bufs[i].refcnt == others[i] + if bufs[i].locked then 1 else 0
  }

  predicate BufOk(b: Buf, i: nat, disk: map<Key, Block>, logical: map<Key, Block>, pin: map<Key, nat>) {
    && (b.dirty ==> b.valid && b.key in pin && pin[b.key] == i)
    && (b.valid ==> b.key != ZERO_KEY && b.key in disk && b.key in logical)
    && (b.valid && !b.locked ==> b.data == logical[b.key])
  }

  /** Unlocked valid buffers hold the block's logical contents, and a block that differs from the disk is
    * held by a dirty buffer (pin).
    */
  ghost predicate Coherent(bufs: seq<Buf>, disk: map<Key, Block>, logical: map<Key, Block>, pin: map<Key, nat>) {
    && logical.Keys == disk.Keys
    && (forall i :: 0 <= i < |bufs| ==> BufOk(bufs[i], i, disk, logical, pin))
    && (forall k :: k in pin ==> k in disk && pin[k] < |bufs| && bufs[pin[k]].key == k && bufs[pin[k]].dirty)
    && (forall k :: k in disk && k !in pin ==> disk[k] == logical[k])
  }

  predicate Recyclable(b: Buf) {
    b.refcnt == 0 && !b.dirty
  }

  ghost predicate Cached(bufs: seq<Buf>, key: Key) {
    exists i :: 0 <= i < |bufs| && bufs[i].key == key
  }

  // ----- what each critical section does to the buffers

  /** bget taking one more reference to buffer r. */
  lemma HitKeeps(bufs: seq<Buf>, others: seq<nat>, disk: map<Key, Block>, logical: map<Key, Block>, pin: map<Key, nat>, r: nat)
    requires Unique(bufs) && RefsOk(bufs, others) && Coherent(bufs, disk, logical, pin) && r < |bufs|
    ensures var bufs' := bufs[r := bufs[r].(refcnt := bufs[r].refcnt + 1)];
      Unique(bufs') && RefsOk(bufs', others[r := others[r] + 1]) && Coherent(bufs', disk, logical, pin)
  {
    var bufs' := bufs[r := bufs[r].(refcnt := bufs[r].refcnt + 1)];
    forall i | 0 <= i < |bufs'|
      ensures BufOk(bufs'[i], i, disk, logical, pin)
    {
      assert BufOk(bufs[i], i, disk, logical, pin);
    }
  }

  /** bget recycling buffer r, unreferenced and clean, for a block that is not cached. */
  lemma RecycleKeeps(bufs: seq<Buf>, others: seq<nat>, disk: map<Key, Block>, logical: map<Key, Block>, pin: map<Key, nat>,
                     r: nat, key: Key)
    requires Unique(bufs) && RefsOk(bufs, others) && Coherent(bufs, disk, logical, pin) && r < |bufs|
    requires Recyclable(bufs[r]) && forall i :: 0 <= i < |bufs| ==> bufs[i].key != key
    ensures var bufs' := bufs[r := bufs[r].(key := key, valid := false, dirty := false, refcnt := 1)];
      Unique(bufs') && RefsOk(bufs', others[r := 1]) && Coherent(bufs', disk, logical, pin)
  {
    var bufs' := bufs[r := bufs[r].(key := key, valid := false, dirty := false, refcnt := 1)];
    forall i | 0 <= i < |bufs'|
      ensures BufOk(bufs'[i], i, disk, logical, pin)
    {
      assert BufOk(bufs[i], i, disk, logical, pin);
    }
  }

  /** disk', logical' and pin' differ from disk, logical and pin at key only. */
  ghost predicate OnlyAt(key: Key, disk: map<Key, Block>, logical: map<Key, Block>, pin: map<Key, nat>,
                         disk': map<Key, Block>, logical': map<Key, Block>, pin': map<Key, nat>)
  {
    && disk'.Keys == disk.Keys && logical'.Keys == logical.Keys
    && (forall k :: k in disk && k != key ==> disk'[k] == disk[k])
    && (forall k :: k in logical && k != key ==> logical'[k] == logical[k])
    && (forall k :: k in pin && k != key ==> k in pin' && pin'[k] == pin[k])
    && (forall k :: k in pin' && k != key ==> k in pin)
  }

  /** A step by the holder of buffer r, or on its lock, that leaves its key alone. */
  lemma HolderKeeps(bufs: seq<Buf>, others: seq<nat>, disk: map<Key, Block>, logical: map<Key, Block>, pin: map<Key, nat>,
                    r: nat, b: Buf, n: nat, disk': map<Key, Block>, logical': map<Key, Block>, pin': map<Key, nat>)
    requires Unique(bufs) && RefsOk(bufs, others) && Coherent(bufs, disk, logical, pin) && r < |bufs|
    requires b.key == bufs[r].key && b.refcnt == n + (if b.locked then 1 else 0) && BufOk(b, r, disk', logical', pin')
    requires OnlyAt(b.key, disk, logical, pin, disk', logical', pin')
    requires b.key == ZERO_KEY ==> disk' == disk && logical' == logical && pin' == pin
    requires b.key in pin' ==> b.key in disk && pin'[b.key] == r && b.dirty
    requires b.key !in pin' && b.key in disk ==> disk'[b.key] == logical'[b.key]
    ensures Unique(bufs[r := b]) && RefsOk(bufs[r := b], others[r := n]) && Coherent(bufs[r := b], disk', logical', pin')
  {
    RefsKeep(bufs, others, r, b, n);
    forall i: nat | i < |bufs| && i != r
      ensures BufOk(bufs[i], i, disk', logical', pin')
    {
      BystanderOk(bufs, disk, logical, pin, r, i, disk', logical', pin');
    }
    hide BufOk, Unique, RefsOk;
    CoherentAgain(bufs, disk, logical, pin, r, b, disk', logical', pin');
  }

  lemma RefsKeep(bufs: seq<Buf>, others: seq<nat>, r: nat, b: Buf, n: nat)
    requires Unique(bufs) && RefsOk(bufs, others) && r < |bufs|
    requires b.key == bufs[r].key && b.refcnt == n + (if b.locked then 1 else 0)
    ensures Unique(bufs[r := b]) && RefsOk(bufs[r := b], others[r := n])
  {
  }

  lemma CoherentAgain(bufs: seq<Buf>, disk: map<Key, Block>, logical: map<Key, Block>, pin: map<Key, nat>, r: nat, b: Buf,
                      disk': map<Key, Block>, logical': map<Key, Block>, pin': map<Key, nat>)
    requires Coherent(bufs, disk, logical, pin) && r < |bufs| && b.key == bufs[r].key && BufOk(b, r, disk', logical', pin')
    requires OnlyAt(b.key, disk, logical, pin, disk', logical', pin')
    requires forall i: nat :: i < |bufs| && i != r ==> BufOk(bufs[i], i, disk', logical', pin')
    requires b.key in pin' ==> b.key in disk && pin'[b.key] == r && b.dirty
    requires b.key !in pin' && b.key in disk ==> disk'[b.key] == logical'[b.key]
    ensures Coherent(bufs[r := b], disk', logical', pin')
  {
    hide BufOk;
    var bufs' := bufs[r := b];
    forall k | k in pin'
      ensures k in disk' && pin'[k] < |bufs'| && bufs'[pin'[k]].key == k && bufs'[pin'[k]].dirty
    {
      assert k != b.key ==> k in pin;
    }
    forall k | k in disk' && k !in pin'
      ensures disk'[k] == logical'[k]
    {
      assert k != b.key ==> k !in pin;
    }
  }

  lemma BystanderOk(bufs: seq<Buf>, disk: map<Key, Block>, logical: map<Key, Block>, pin: map<Key, nat>, r: nat, i: nat,
                    disk': map<Key, Block>, logical': map<Key, Block>, pin': map<Key, nat>)
    requires Unique(bufs) && Coherent(bufs, disk, logical, pin) && r < |bufs| && i < |bufs| && i != r
    requires OnlyAt(bufs[r].key, disk, logical, pin, disk', logical', pin')
    requires bufs[r].key == ZERO_KEY ==> disk' == disk && logical' == logical && pin' == pin
    ensures BufOk(bufs[i], i, disk', logical', pin')
  {
    assert BufOk(bufs[i], i, disk, logical, pin);
    if bufs[i].key == bufs[r].key {
      assert bufs[i].key == ZERO_KEY;
    }
  }

  /** iderw by the holder of buffer r. */
  lemma IderwKeeps(bufs: seq<Buf>, others: seq<nat>, disk: map<Key, Block>, logical: map<Key, Block>, pin: map<Key, nat>, r: nat)
    requires Unique(bufs) && RefsOk(bufs, others) && Coherent(bufs, disk, logical, pin) && r < |bufs|
    requires bufs[r].locked && bufs[r].key in disk && bufs[r].key != ZERO_KEY
    requires bufs[r].dirty ==> bufs[r].data == logical[bufs[r].key]
    ensures var k, d := bufs[r].key, if bufs[r].dirty then bufs[r].data else disk[bufs[r].key];
      var bufs' := bufs[r := bufs[r].(valid := true, dirty := false, data := d)];
      && d == logical[k] && Unique(bufs') && RefsOk(bufs', others)
      && Coherent(bufs', disk[k := d], logical, pin - {k})
  {
    var k, d := bufs[r].key, if bufs[r].dirty then bufs[r].data else disk[bufs[r].key];
    assert BufOk(bufs[r], r, disk, logical, pin);
    assert k in pin ==> bufs[pin[k]].key == k && bufs[pin[k]].dirty && pin[k] == r;
    var b := bufs[r].(valid := true, dirty := false, data := d);
    assert others[r := others[r]] == others;
    HolderKeeps(bufs, others, disk, logical, pin, r, b, others[r], disk[k := d], logical, pin - {k});
  }

  lemma EmptyRing(next: seq<nat>, prev: seq<nat>)
    requires |next| == |prev| == NBUF + 1 && next[HEAD] == prev[HEAD] == HEAD
    ensures Ring(next, prev, [])
  {
  }

  /** Buffers as binit leaves them, the last one first. */
  lemma FreshBuffers(bufs: seq<Buf>, order: seq<nat>, disk: map<Key, Block>)
    requires |bufs| == NBUF && forall i :: 0 <= i < NBUF ==> bufs[i] == Buf(ZERO_KEY, false, false, false, 0, Zero())
    requires |order| == NBUF && forall i :: 0 <= i < NBUF ==> order[i] == NBUF - 1 - i
    ensures Unique(bufs) && RefsOk(bufs, ZeroCounts(NBUF)) && Coherent(bufs, disk, disk, map[])
    ensures Recent(order, Clocks(NBUF), NBUF)
  {
  }

  class BufferCache {
    const buf: array<Buf>
    const next: array<nat>
    const prev: array<nat>
    var disk: map<Key, Block>
    ghost var order: seq<nat>
    ghost var stamp: seq<int>             // when each buffer last dropped to refcnt 0
    ghost var clock: int
    ghost var others: seq<nat>
    ghost var logical: map<Key, Block>    // the last logged or written contents of each block
    ghost var pin: map<Key, nat>

    ghost predicate Valid()
      reads this, buf, next, prev
    {
      && buf.Length == NBUF && next.Length == prev.Length == NBUF + 1 && next != prev
      && FullRing(next[..], prev[..], order) && Recent(order, stamp, clock)
      && Unique(buf[..]) && RefsOk(buf[..], others) && Coherent(buf[..], disk, logical, pin)
    }

    /** binit, with an empty cache over the given disk. */
    constructor (disk: map<Key, Block>)
      ensures Valid() && this.disk == logical == disk && pin == map[]
      ensures forall i :: 0 <= i < NBUF ==> buf[i].key == ZERO_KEY && buf[i].refcnt == 0 && !buf[i].valid && !buf[i].dirty
      ensures fresh(buf) && fresh(next) && fresh(prev)
    {
      this.disk, logical, pin := disk, disk, map[];
      buf := new Buf[NBUF](_ => Buf(ZERO_KEY, false, false, false, 0, Zero()));
      next, prev := new nat[NBUF + 1](_ => HEAD), new nat[NBUF + 1](_ => HEAD);
      order, stamp, clock, others := [], Clocks(NBUF), NBUF, ZeroCounts(NBUF);
      new;
      EmptyRing(next[..], prev[..]);
      hide Ring, Unique, RefsOk, Coherent, Recent;
      var b := 0;
      while b < NBUF
        invariant 0 <= b <= NBUF && Ring(next[..], prev[..], order) && |order| == b
        invariant forall x :: x in order <==> 0 <= x < b
        invariant forall i :: 0 <= i < b ==> order[i] == b - 1 - i
        invariant fresh(buf) && fresh(next) && fresh(prev)
        invariant stamp == Clocks(NBUF) && clock == NBUF && others == ZeroCounts(NBUF)
        invariant this.disk == logical == disk && pin == map[]
        invariant forall i :: 0 <= i < NBUF ==> buf[i] == Buf(ZERO_KEY, false, false, false, 0, Zero())
      {
        PushKeepsRing(next[..], prev[..], order, b);
        next[b] := next[HEAD];
        prev[b] := HEAD;
        prev[next[HEAD]] := b;
        next[HEAD] := b;
        order := [b] + order;
        b := b + 1;
      }
      FreshBuffers(buf[..], order, disk);
    }

    /** Every buffer but r, and everything else, is as it was. */
    twostate predicate OnlyBuf(r: nat)
      reads this, buf, next, prev
    {
      && buf.Length == NBUF && forall i :: 0 <= i < NBUF && i != r ==> buf[i] == old(buf[i])
    }

    /** bget up to the release of bcache.lock; !ok is the panic "no buffers".  A cached block's buffer gets one
      * more reference.  Otherwise the buffer recycled is, of those unreferenced and clean, the one whose last
      * reference was dropped longest ago.  Referenced and dirty buffers are never recycled.
      */
    method Bget(key: Key) returns (r: nat, ok: bool)
      requires Valid()
      modifies buf, this`others
      ensures Valid() && r < NBUF && OnlyBuf(r)
      ensures old(Cached(buf[..], key)) ==>
        ok && old(buf[r]).key == key && buf[r] == old(buf[r]).(refcnt := old(buf[r].refcnt) + 1)
      ensures !old(Cached(buf[..], key)) && ok ==>
        && old(buf[r].refcnt) == 0 && !old(buf[r].dirty)
        && buf[r] == old(buf[r]).(key := key, valid := false, dirty := false, refcnt := 1)
        && forall i :: 0 <= i < NBUF && i != r && old(buf[i].refcnt) == 0 && !old(buf[i].dirty) ==> stamp[r] < stamp[i]
      ensures !ok ==> buf[..] == old(buf[..]) && others == old(others)
      ensures !ok <==> old(forall i :: 0 <= i < NBUF ==> buf[i].key != key && (buf[i].refcnt != 0 || buf[i].dirty))
      ensures ok ==> others == old(others)[r := others[r]] && others[r] > 0
    {
      assert |others| == NBUF;
      hide FullRing, Recent, Unique, RefsOk, Coherent;
      ok := true;
      ghost var p;
      r, p := FindCached(key);
      if r != HEAD {
        Hit(r);
        return;
      }
      r, p := FindRecyclable();
      if r != HEAD {
        Recycle(r, key);
        return;
      }
      return 0, false;
    }

    /** One more reference to a cached block's buffer. */
    method Hit(r: nat)
      requires Valid() && r < NBUF
      modifies buf, this`others
      ensures Valid() && OnlyBuf(r) && buf[r] == old(buf[r]).(refcnt := old(buf[r].refcnt) + 1)
      ensures others == old(others)[r := others[r]] && others[r] > 0
    {
      assert |others| == NBUF;
      hide FullRing, Recent, Unique, RefsOk, Coherent;
      HitKeeps(buf[..], others, disk, logical, pin, r);
      buf[r] := buf[r].(refcnt := buf[r].refcnt + 1);
      others := others[r := others[r] + 1];
    }

    /** An unreferenced, clean buffer given to a block that is not cached. */
    method Recycle(r: nat, key: Key)
      requires Valid() && r < NBUF && Recyclable(buf[r]) && forall i :: 0 <= i < NBUF ==> buf[i].key != key
      modifies buf, this`others
      ensures Valid() && OnlyBuf(r) && buf[r] == old(buf[r]).(key := key, valid := false, dirty := false, refcnt := 1)
      ensures others == old(others)[r := others[r]] && others[r] > 0
    {
      assert |others| == NBUF;
      hide FullRing, Recent, Unique, RefsOk, Coherent;
      RecycleKeeps(buf[..], others, disk, logical, pin, r, key);
      buf[r] := buf[r].(key := key, valid := false, dirty := false, refcnt := 1);
      others := others[r := 1];
    }

    /** bget's first scan, from the most recently used buffer; HEAD if there is none. */
    method FindCached(key: Key) returns (b: nat, ghost p: nat)
      requires Valid()
      ensures b == HEAD || (b < NBUF && buf[b].key == key)
      ensures b == HEAD ==> forall i :: 0 <= i < NBUF ==> buf[i].key != key
    {
      assert LinkAt(next[..], prev[..], order, 0);
      b, p := next[HEAD], 0;
      while b != HEAD
        invariant p <= NBUF && b == Node(order, p + 1)
        invariant forall i :: 0 <= i < p ==> buf[order[i]].key != key
        decreases NBUF - p
      {
        if buf[b].key == key {
          return;
        }
        assert LinkAt(next[..], prev[..], order, p + 1);
        b, p := next[b], p + 1;
      }
      forall i: nat | i < NBUF
        ensures buf[i].key != key
      {
        assert i in order;
      }
    }

    /** bget's second scan, from the least recently used buffer; HEAD if there is none. */
    method FindRecyclable() returns (b: nat, ghost p: nat)
      requires Valid()
      ensures b == HEAD || (b < NBUF && Recyclable(buf[b]))
      ensures b != HEAD ==> forall i :: 0 <= i < NBUF && i != b && Recyclable(buf[i]) ==> stamp[b] < stamp[i]
      ensures b == HEAD ==> forall i :: 0 <= i < NBUF ==> !Recyclable(buf[i])
    {
      assert LinkAt(next[..], prev[..], order, NBUF);
      b, p := prev[HEAD], NBUF;
      while b != HEAD
        invariant p <= NBUF && b == Node(order, p)
        invariant forall i :: p <= i < NBUF ==> !Recyclable(buf[order[i]])
        decreases p
      {
        if Recyclable(buf[b]) {
          break;
        }
        assert LinkAt(next[..], prev[..], order, p - 1);
        b, p := prev[b], p - 1;
      }
      forall i: nat | i < NBUF && i != b && Recyclable(buf[i])
        ensures b != HEAD && stamp[b] < stamp[i]
      {
        assert i in order;
        var j :| 0 <= j < |order| && order[j] == i;
        assert j < p - 1;
      }
    }

    /** acquiresleep(&b->lock) by a process past bget, once the lock is free. */
    method AcquireSleep(r: nat)
      requires Valid() && r < NBUF && !buf[r].locked && others[r] > 0
      modifies buf, this`others
      ensures Valid() && OnlyBuf(r) && buf[r] == old(buf[r]).(locked := true)
      ensures others == old(others)[r := old(others)[r] - 1]
    {
      var b := buf[r].(locked := true);
      assert BufOk(buf[r], r, disk, logical, pin);
      HolderKeeps(buf[..], others, disk, logical, pin, r, b, others[r] - 1, disk, logical, pin);
      buf[r] := b;
      others := others[r := others[r] - 1];
    }

    /** releasesleep(&b->lock).  The holder has logged or written any change it made: that is what bio.c and
      * log.c ask of their callers.
      */
    method ReleaseSleep(r: nat)
      requires Valid() && r < NBUF && buf[r].locked
      requires buf[r].valid ==> buf[r].data == logical[buf[r].key]
      modifies buf, this`others
      ensures Valid() && OnlyBuf(r) && buf[r] == old(buf[r]).(locked := false)
      ensures others == old(others)[r := old(others)[r] + 1]
    {
      var b := buf[r].(locked := false);
      assert BufOk(buf[r], r, disk, logical, pin);
      HolderKeeps(buf[..], others, disk, logical, pin, r, b, others[r] + 1, disk, logical, pin);
      buf[r] := b;
      others := others[r := others[r] + 1];
    }

    /** The holder changes the data. */
    method Store(r: nat, data: Block)
      requires Valid() && r < NBUF && buf[r].locked && buf[r].valid
      modifies buf
      ensures Valid() && OnlyBuf(r) && buf[r] == old(buf[r]).(data := data)
    {
      var b := buf[r].(data := data);
      assert BufOk(buf[r], r, disk, logical, pin);
      HolderKeeps(buf[..], others, disk, logical, pin, r, b, others[r], disk, logical, pin);
      buf[r] := b;
      assert others == others[r := others[r]];
    }

    /** log_write's effect on the buffer: B_DIRTY pins it, and its data are what readers must now see. */
    method LogWrite(r: nat)
      requires Valid() && r < NBUF && buf[r].locked && buf[r].valid
      modifies buf, this`logical, this`pin
      ensures Valid() && OnlyBuf(r) && buf[r] == old(buf[r]).(dirty := true)
      ensures old(buf[r].key) in old(logical) && logical == old(logical)[buf[r].key := buf[r].data]
    {
      var b := buf[r].(dirty := true);
      assert BufOk(buf[r], r, disk, logical, pin);
      ghost var l, q := logical[b.key := b.data], pin[b.key := r];
      hide FullRing, Recent, Unique, RefsOk, Coherent;
      HolderKeeps(buf[..], others, disk, logical, pin, r, b, others[r], disk, l, q);
      buf[r] := b;
      logical, pin := l, q;
      assert others == others[r := others[r]];
    }

    /** iderw on a buffer the caller holds, as memide.c does it: a dirty buffer is written and becomes clean, an
      * invalid one is read.  The panics are preconditions.
      */
    method Iderw(r: nat)
      requires Valid() && r < NBUF && buf[r].locked && buf[r].key in disk && buf[r].key != ZERO_KEY
      requires !buf[r].valid || buf[r].dirty
      requires buf[r].dirty ==> buf[r].data == logical[buf[r].key]
      modifies buf, this`disk, this`pin
      ensures Valid() && OnlyBuf(r) && buf[r] == old(buf[r]).(valid := true, dirty := false, data := buf[r].data)
      ensures disk == old(disk)[buf[r].key := buf[r].data] && buf[r].data == logical[buf[r].key]
      ensures buf[r].data == if old(buf[r].dirty) then old(buf[r].data) else old(disk)[buf[r].key]
    {
      hide FullRing, Recent, Unique, RefsOk, Coherent;
      ghost var k, bufs, d := buf[r].key, buf[..], if buf[r].dirty then buf[r].data else disk[buf[r].key];
      IderwKeeps(bufs, others, disk, logical, pin, r);
      ghost var disk0 := disk;
      if buf[r].dirty {
        disk := disk[buf[r].key := buf[r].data];
        buf[r] := buf[r].(dirty := false, valid := true);
      } else {
        buf[r] := buf[r].(data := disk[buf[r].key], valid := true);
      }
      pin := pin - {k};
      assert disk == disk0[k := d];
      assert buf[..] == bufs[r := bufs[r].(valid := true, dirty := false, data := d)];
    }

    /** bwrite: the holder's data go to the disk; the buffer is clean again. */
    method Bwrite(r: nat)
      requires Valid() && r < NBUF && buf[r].locked && buf[r].valid
      modifies buf, this`disk, this`logical, this`pin
      ensures Valid() && OnlyBuf(r) && buf[r] == old(buf[r]).(dirty := false)
      ensures old(buf[r].key) in old(disk)
      ensures disk == old(disk)[buf[r].key := buf[r].data] && logical == old(logical)[buf[r].key := buf[r].data]
    {
      assert BufOk(buf[r], r, disk, logical, pin);
      LogWrite(r);
      Iderw(r);
    }

    /** bread once its bget is done and the buffer's lock is free: acquiresleep, and iderw if the data are not
      * there.  Whatever ran in between, the holder gets the block's logical contents.
      */
    method FinishBread(r: nat)
      requires Valid() && r < NBUF && !buf[r].locked && others[r] > 0
      requires buf[r].key in disk && buf[r].key != ZERO_KEY
      modifies buf, this`others, this`disk, this`pin
      ensures Valid() && OnlyBuf(r) && buf[r].locked && buf[r].valid && buf[r].key == old(buf[r].key)
      ensures disk == old(disk) && buf[r].key in logical && buf[r].data == logical[buf[r].key]
    {
      assert BufOk(buf[r], r, disk, logical, pin);
      AcquireSleep(r);
      if !buf[r].valid {
        Iderw(r);
      }
    }

    /** bread when no other process is using the block; !ok is the panic "no buffers". */
    method Bread(key: Key) returns (r: nat, ok: bool)
      requires Valid() && key in disk && key != ZERO_KEY
      requires forall i :: 0 <= i < NBUF && buf[i].key == key ==> !buf[i].locked
      modifies buf, this`others, this`disk, this`pin
      ensures Valid() && r < NBUF && OnlyBuf(r) && disk == old(disk)
      ensures ok ==> buf[r].key == key && buf[r].locked && buf[r].valid && key in logical && buf[r].data == logical[key]
      ensures !ok ==> buf[..] == old(buf[..]) && forall i :: 0 <= i < NBUF ==> !Recyclable(buf[i])
    {
      r, ok := Bget(key);
      if ok {
        UnlockedIfNew(r);
        FinishBread(r);
      }
    }

    lemma UnlockedIfNew(r: nat)
      requires Valid() && r < NBUF
      ensures buf[r].refcnt == others[r] + if buf[r].locked then 1 else 0
    {
    }

    /** The rest of brelse: drop the reference and, if it was the last, move the buffer to the front. */
    method Drop(r: nat)
      requires Valid() && r < NBUF && others[r] > 0
      modifies buf, next, prev, this`others, this`order, this`stamp, this`clock
      ensures Valid() && OnlyBuf(r) && buf[r] == old(buf[r]).(refcnt := old(buf[r].refcnt) - 1)
      ensures others == old(others)[r := old(others)[r] - 1]
      ensures buf[r].refcnt > 0 ==> order == old(order) && stamp == old(stamp)
      ensures buf[r].refcnt == 0 ==> stamp == old(stamp)[r := old(clock)] && order[0] == r
      ensures buf[r].refcnt == 0 ==> exists k :: 0 <= k < NBUF && old(order)[k] == r && order == [r] + Without(old(order), k)
    {
      var b := buf[r].(refcnt := buf[r].refcnt - 1);
      assert BufOk(buf[r], r, disk, logical, pin);
      HolderKeeps(buf[..], others, disk, logical, pin, r, b, others[r] - 1, disk, logical, pin);
      buf[r] := b;
      others := others[r := others[r] - 1];
      if buf[r].refcnt == 0 {
        Front(r);
      }
    }

    method Front(r: nat)
      requires Valid() && r < NBUF
      modifies next, prev, this`order, this`stamp, this`clock
      ensures Valid() && stamp == old(stamp)[r := old(clock)] && order[0] == r
      ensures exists k :: 0 <= k < NBUF && old(order)[k] == r && order == [r] + Without(old(order), k)
    {
      assert r in order;
      ghost var k :| 0 <= k < NBUF && order[k] == r;
      MoveToFront(next[..], prev[..], order, k, stamp, clock);
      hide FullRing, Recent, Unique, RefsOk, Coherent;
      prev[next[r]] := prev[r];
      next[prev[r]] := next[r];
      next[r] := next[HEAD];
      prev[r] := HEAD;
      prev[next[HEAD]] := r;
      next[HEAD] := r;
      order, stamp, clock := [r] + Without(order, k), stamp[r := clock], clock + 1;
    }

    /** brelse by the holder. */
    method Brelse(r: nat)
      requires Valid() && r < NBUF && buf[r].locked
      requires buf[r].valid ==> buf[r].data == logical[buf[r].key]
      modifies buf, next, prev, this`others, this`order, this`stamp, this`clock
      ensures Valid() && OnlyBuf(r)
      ensures buf[r] == old(buf[r]).(locked := false, refcnt := old(buf[r].refcnt) - 1) && others == old(others)
      ensures buf[r].refcnt > 0 ==> order == old(order) && stamp == old(stamp)
      ensures buf[r].refcnt == 0 ==> stamp == old(stamp)[r := old(clock)] && order[0] == r
    {
      UnlockedIfNew(r);
      hide FullRing, Recent, Unique, RefsOk, Coherent;
      ReleaseSleep(r);
      Drop(r);
    }

    /** A block has at most one buffer, referenced or not. */
    lemma OneBuffer(i: nat, j: nat)
      requires Valid() && i < NBUF && j < NBUF && buf[i].key == buf[j].key != ZERO_KEY
      ensures i == j
    {
      assert buf[..][i] == buf[i] && buf[..][j] == buf[j];
    }

    /** Contents that are not on the disk yet are in a dirty buffer, which bget will not recycle. */
    lemma UnwrittenIsPinned(key: Key)
      requires Valid() && key in disk && disk[key] != logical[key]
      ensures exists i :: 0 <= i < NBUF && buf[i].key == key && buf[i].dirty && !Recyclable(buf[i])
    {
      assert key in pin;
      assert buf[..][pin[key]] == buf[pin[key]];
    }
  }

  function Clocks(n: nat): (r: seq<int>)
    ensures |r| == n && forall i :: 0 <= i < n ==> r[i] == i
  {
    if n == 0 then [] else Clocks(n - 1) + [n - 1]
  }

  function ZeroCounts(n: nat): (r: seq<nat>)
    ensures |r| == n && forall i :: 0 <= i < n ==> r[i] == 0
  {
    if n == 0 then [] else ZeroCounts(n - 1) + [0]
  }
}
