/** The queued disk driver of ide.c, against the in-memory driver of memide.c.
  *
  * Each method of Driver is one critical section under idelock: iderw up to its sleep, the interrupt,
  * and iderw's return.  Any sequence of calls is an interleaving of requesters and interrupts.
  */
module Ide {
  import opened FsFormat
  import opened Bio

  /** The part of struct buf the drivers use. */
  datatype Request = Request(key: Key, valid: bool, dirty: bool, data: Block)

  type Disk = map<Key, Block>

  /** "iderw: nothing to do" is excluded. */
  predicate Pending(b: Request) {
    !b.valid || b.dirty
  }

  predicate Done(b: Request) {
    b.valid && !b.dirty
  }

  /** What both drivers promise: a dirty buffer is written, any other is read; then it is valid and clean. */
  function Synced(b: Request, disk: Disk): Request
    requires b.key in disk
  {
    if b.dirty then b.(dirty := false, valid := true) else b.(data := disk[b.key], valid := true)
  }

  function DiskSynced(b: Request, disk: Disk): (r: Disk)
    requires b.key in disk
    ensures r.Keys == disk.Keys
  {
    if b.dirty then disk[b.key := b.data] else disk
  }

  /** Requests handled one after the other. */
  function SyncAll(disk: Disk, rs: seq<Request>): (r: Disk)
    requires forall i :: 0 <= i < |rs| ==> rs[i].key in disk
    ensures r.Keys == disk.Keys
  {
    if rs == [] then disk else DiskSynced(rs[|rs| - 1], SyncAll(disk, rs[..|rs| - 1]))
  }

  /** data is what the last write to block k among the first n requests put there, or what disk0 holds if there was
    * none: reads leave the disk alone.
    */
  ghost predicate LatestOn(disk0: Disk, rs: seq<Request>, n: nat, k: Key, data: Block)
    requires n <= |rs| && k in disk0
  {
    || (data == disk0[k] && forall j :: 0 <= j < n && rs[j].key == k ==> !rs[j].dirty)
    || exists j :: 0 <= j < n && LastWrite(rs, j, n, k) && data == rs[j].data
  }

  predicate LastWrite(rs: seq<Request>, j: nat, n: nat, k: Key)
    requires j < n <= |rs|
  {
    rs[j].key == k && rs[j].dirty && forall l :: j < l < n && rs[l].key == k ==> !rs[l].dirty
  }

  /** After any requests every block of the disk holds what the last write to it put there. */
  lemma {:induction false} SyncAllLatest(disk0: Disk, rs: seq<Request>, n: nat, k: Key)
    requires (forall i :: 0 <= i < |rs| ==> rs[i].key in disk0) && n <= |rs| && k in disk0
    ensures LatestOn(disk0, rs, n, k, SyncAll(disk0, rs[..n])[k])
    decreases n
  {
    if n > 0 {
      var r := rs[n - 1];
      SyncAllLatest(disk0, rs, n - 1, k);
      assert rs[..n][..n - 1] == rs[..n - 1];
      if r.key == k && r.dirty {
        assert LastWrite(rs, n - 1, n, k);
      } else if j :| 0 <= j < n - 1 && LastWrite(rs, j, n - 1, k) && SyncAll(disk0, rs[..n - 1])[k] == rs[j].data {
        assert LastWrite(rs, j, n, k);
      }
    }
  }

  /** memide.c: the whole request at once. */
  class MemDisk {
    const dev: nat := 1
    var memdisk: seq<Block>

    constructor (image: seq<Block>)
      ensures memdisk == image
    {
      memdisk := image;
    }

    ghost function Contents(): Disk
      reads this
    {
      map n: nat | n < |memdisk| :: Key(dev, n) := memdisk[n]
    }

    lemma KeysHere(key: Key)
      ensures key in Contents() <==> key.dev == dev && key.blockno < |memdisk|
    {
      if key.dev == dev && key.blockno < |memdisk| {
        assert key == Key(dev, key.blockno);
      }
    }

    method Iderw(b: Request) returns (b': Request)
      requires Pending(b) && b.key.dev == dev && b.key.blockno < |memdisk|
      modifies this`memdisk
      ensures |memdisk| == |old(memdisk)| && b.key in old(Contents())
      ensures b'.valid && !b'.dirty && b'.key == b.key
      ensures b.dirty ==> b'.data == b.data && memdisk == old(memdisk)[b.key.blockno := b.data]
      ensures !b.dirty ==> b'.data == memdisk[b.key.blockno] && memdisk == old(memdisk)
      ensures b' == Synced(b, old(Contents())) && Contents() == DiskSynced(b, old(Contents()))
    {
      b' := b;
      var p := b.key.blockno;
      if b'.dirty {
        b' := b'.(dirty := false);
        memdisk := memdisk[p := b'.data];
      } else {
        b' := b'.(data := memdisk[p]);
      }
      b' := b'.(valid := true);
    }
  }

  /** rs' are the first requests of rs as a synchronous driver returns them. */
  ghost predicate Replayed(disk: Disk, rs: seq<Request>, rs': seq<Request>)
    requires forall i :: 0 <= i < |rs| ==> rs[i].key in disk
  {
    |rs'| <= |rs| && forall i :: 0 <= i < |rs'| ==> rs'[i] == Synced(rs[i], SyncAll(disk, rs[..i]))
  }

  lemma SyncNext(disk: Disk, rs: seq<Request>, k: nat)
    requires (forall i :: 0 <= i < |rs| ==> rs[i].key in disk) && k < |rs|
    ensures SyncAll(disk, rs[..k + 1]) == DiskSynced(rs[k], SyncAll(disk, rs[..k]))
  {
    assert rs[..k + 1][..k] == rs[..k];
  }

  /** The synchronous driver, given requests one after the other. */
  method Replay(mem: MemDisk, rs: seq<Request>) returns (rs': seq<Request>)
    requires forall i :: 0 <= i < |rs| ==> Pending(rs[i]) && rs[i].key in mem.Contents()
    modifies mem`memdisk
    ensures forall i :: 0 <= i < |rs| ==> rs[i].key in old(mem.Contents())
    ensures mem.Contents() == SyncAll(old(mem.Contents()), rs)
    ensures |rs'| == |rs| && Replayed(old(mem.Contents()), rs, rs')
  {
    hide MemDisk.Contents, DiskSynced, Synced, SyncAll, Pending, Replayed;
    ghost var d0 := mem.Contents();
    rs' := [];
    assert rs[..0] == [] && SyncAll(d0, []) == d0 && Replayed(d0, rs, []) by {
      NothingReplayed(d0, rs);
    }
    var k := 0;
    while k < |rs|
      invariant k == |rs'| <= |rs| && mem.Contents() == SyncAll(d0, rs[..k]) && Replayed(d0, rs, rs')
    {
      mem.KeysHere(rs[k].key);
      SyncNext(d0, rs, k);
      var r := mem.Iderw(rs[k]);
      ReplayedMore(d0, rs, rs', r);
      rs', k := rs' + [r], k + 1;
    }
    assert rs[..k] == rs;
  }

  lemma NothingReplayed(disk: Disk, rs: seq<Request>)
    requires forall i :: 0 <= i < |rs| ==> rs[i].key in disk
    ensures SyncAll(disk, []) == disk && Replayed(disk, rs, [])
  {
  }

  lemma ReplayedMore(disk: Disk, rs: seq<Request>, rs': seq<Request>, r: Request)
    requires (forall i :: 0 <= i < |rs| ==> rs[i].key in disk) && |rs'| < |rs| && Replayed(disk, rs, rs')
    requires r == Synced(rs[|rs'|], SyncAll(disk, rs[..|rs'|]))
    ensures Replayed(disk, rs, rs' + [r])
  {
    hide Synced, SyncAll;
  }

  /** What the device is doing. */
  datatype Device = Idle | Reading(key: Key) | Writing(key: Key, data: Block)

  /** The command idestart gives for a request. */
  function Command(b: Request): Device {
    if b.dirty then Writing(b.key, b.data) else Reading(b.key)
  }

  function NextIn(queue: seq<nat>, i: nat, nil: nat): nat
    requires i <= |queue|
  {
    if i < |queue| then queue[i] else nil
  }

  /** idequeue and the qnext fields spell out queue; nil is the null pointer. */
  ghost predicate Chain(head: nat, qnext: seq<nat>, queue: seq<nat>, nil: nat) {
    && head == NextIn(queue, 0, nil) && |qnext| == nil
    && (forall i :: 0 <= i < |queue| ==> queue[i] < nil)
    && (forall i, j :: 0 <= i < j < |queue| ==> queue[i] != queue[j])
    && (forall i :: 0 <= i < |queue| ==> LinkTo(qnext, queue, i, nil))
  }

  predicate LinkTo(qnext: seq<nat>, queue: seq<nat>, i: nat, nil: nat)
    requires i < |queue|
  {
    queue[i] < |qnext| && qnext[queue[i]] == NextIn(queue, i + 1, nil)
  }

  lemma ChainAppend(head: nat, qnext: seq<nat>, queue: seq<nat>, nil: nat, b: nat)
    requires Chain(head, qnext, queue, nil) && b < nil && b !in queue
    ensures queue == [] ==> Chain(b, qnext[b := nil], [b], nil)
    ensures queue != [] ==> Chain(head, qnext[b := nil][queue[|queue| - 1] := b], queue + [b], nil)
  {
    if queue != [] {
      var q', n' := queue + [b], qnext[b := nil][queue[|queue| - 1] := b];
      forall i: nat | i < |q'|
        ensures LinkTo(n', q', i, nil)
      {
        if i < |queue| {
          assert LinkTo(qnext, queue, i, nil);
        }
      }
    }
  }

  lemma ChainPop(head: nat, qnext: seq<nat>, queue: seq<nat>, nil: nat)
    requires Chain(head, qnext, queue, nil) && queue != []
    ensures Chain(qnext[head], qnext, queue[1..], nil) && head == queue[0]
  {
    var q' := queue[1..];
    assert LinkTo(qnext, queue, 0, nil);
    forall i: nat | i < |q'|
      ensures LinkTo(qnext, q', i, nil)
    {
      assert LinkTo(qnext, queue, i + 1, nil);
    }
  }

  /** The head pointer tells whether the queue is empty and what is first. */
  lemma HeadIs(head: nat, qnext: seq<nat>, queue: seq<nat>, nil: nat)
    requires Chain(head, qnext, queue, nil)
    ensures queue == [] ==> head == nil
    ensures queue != [] ==> head == queue[0] < nil
  {
  }

  /** The calls of iderw so far: asked is the buffer of each and requests its contents at the call, in the order made.
    * The first finished of them are complete.  turn gives for each buffer whose requester is inside iderw its call,
    * and asleep are those of them whose requester has not been woken.
    */
  datatype History = History(disk0: Disk, asked: seq<nat>, requests: seq<Request>, finished: nat, turn: map<nat, nat>,
                             asleep: set<nat>)
  {
    /** The calls not complete. */
    function Queue(): seq<nat> {
      if finished <= |asked| then asked[finished..] else []
    }

    function Submit(b: nat, r: Request): History {
      this.(asked := asked + [b], requests := requests + [r], turn := turn[b := |asked|], asleep := asleep + {b})
    }

    function Finish(b: nat): History {
      this.(finished := finished + 1, asleep := asleep - {b})
    }

    function Return(b: nat): History {
      this.(turn := turn - {b})
    }

    predicate Ordered() {
      && finished <= |asked| == |requests|
      && forall i :: 0 <= i < |requests| ==> requests[i].key in disk0 && Pending(requests[i])
    }

    /** Call i as the synchronous driver handles it, after the calls before it. */
    function SyncedAt(i: nat): Request
      requires Ordered() && i < |requests|
    {
      Synced(requests[i], SyncAll(disk0, requests[..i]))
    }

    /** Call i, of buffer b, is not back from iderw.  Before its turn its buffer is as it was at the call; after it,
      * flags and data are what the synchronous driver would have left.
      */
    ghost predicate CallOk(bufs: seq<Request>, b: nat, i: nat)
      requires Ordered()
    {
      && b < |bufs| && i < |asked| && asked[i] == b
      && bufs[b] == if i < finished then SyncedAt(i) else requests[i]
    }

    /** The disk and every buffer inside iderw are as if the completed calls had gone through the synchronous driver
      * in order; calls not complete are still inside, each with its own buffer, and exactly those are asleep.
      */
    ghost predicate Ok(bufs: seq<Request>, disk: Disk) {
      Ordered() && disk == SyncAll(disk0, requests[..finished]) && CallsOk(bufs) && InTurn() && Sleeping()
    }

    ghost predicate CallsOk(bufs: seq<Request>)
      requires Ordered()
    {
      forall b :: b in turn ==> CallOk(bufs, b, turn[b])
    }

    ghost predicate InTurn() {
      forall i :: finished <= i < |asked| ==> asked[i] in turn && turn[asked[i]] == i
    }

    ghost predicate Sleeping() {
      forall b :: b in asleep <==> b in Queue()
    }

    /** The command the device must be working on: that of the first incomplete call. */
    function Active(): Device {
      if finished < |requests| then Command(requests[finished]) else Idle
    }
  }

  lemma SubmitKeepsCalls(h: History, bufs: seq<Request>, disk: Disk, b: nat)
    requires h.Ok(bufs, disk) && b < |bufs| && b !in h.turn && Pending(bufs[b]) && bufs[b].key in disk
    ensures var h' := h.Submit(b, bufs[b]); h'.Ordered() && h'.CallsOk(bufs)
  {
    var h' := h.Submit(b, bufs[b]);
    assert h'.Ordered();
    hide History.Sleeping, History.InTurn, Pending, Synced, SyncAll;
    forall c | c in h'.turn
      ensures h'.CallOk(bufs, c, h'.turn[c])
    {
      if c != b {
        assert h.CallOk(bufs, c, h.turn[c]);
        assert h'.requests[..h.turn[c]] == h.requests[..h.turn[c]];
      }
    }
  }

  lemma SubmitQueue(h: History, b: nat, r: Request)
    requires h.Ordered() && h.InTurn() && b !in h.turn
    ensures b !in h.Queue() && h.Submit(b, r).Queue() == h.Queue() + [b]
    ensures h.Submit(b, r).Active() == if h.Queue() == [] then Command(r) else h.Active()
  {
    hide Command;
    assert h.Queue() == [] <==> h.finished == |h.asked|;
  }

  lemma SubmitSleeping(h: History, b: nat, r: Request)
    requires h.Sleeping() && h.Submit(b, r).Queue() == h.Queue() + [b]
    ensures h.Submit(b, r).Sleeping()
  {
    hide History.Queue;
  }

  lemma SubmitInTurn(h: History, b: nat, r: Request)
    requires h.Ordered() && h.InTurn() && b !in h.turn
    ensures h.Submit(b, r).InTurn()
  {
    hide Pending;
  }

  lemma SubmitKeeps(h: History, bufs: seq<Request>, disk: Disk, b: nat)
    requires h.Ok(bufs, disk) && b < |bufs| && b !in h.turn && Pending(bufs[b]) && bufs[b].key in disk
    ensures var h' := h.Submit(b, bufs[b]);
      && h'.Ok(bufs, disk) && b !in h.Queue() && h'.Queue() == h.Queue() + [b]
      && h'.Active() == if h.Queue() == [] then Command(bufs[b]) else h.Active()
  {
    hide History.CallsOk, History.InTurn, History.Queue, History.Active, History.Sleeping, Pending, Command, SyncAll;
    SubmitKeepsCalls(h, bufs, disk, b);
    SubmitQueue(h, b, bufs[b]);
    SubmitInTurn(h, b, bufs[b]);
    SubmitSleeping(h, b, bufs[b]);
    assert h.Submit(b, bufs[b]).requests[..h.finished] == h.requests[..h.finished];
  }

  /** Buffer b, and the disk, after the synchronous driver's work on the request in it. */
  ghost predicate Served(b: nat, bufs: seq<Request>, disk: Disk, bufs': seq<Request>, disk': Disk) {
    && b < |bufs| && bufs[b].key in disk
    && disk' == DiskSynced(bufs[b], disk) && bufs' == bufs[b := Synced(bufs[b], disk)]
  }

  /** The first incomplete call, and the buffer it is on, are as they were made. */
  lemma HeadCall(h: History, bufs: seq<Request>, disk: Disk)
    requires h.Ok(bufs, disk) && h.Queue() != []
    ensures var b := h.Queue()[0]; b < |bufs| && bufs[b].key in disk && h.Active() == Command(bufs[b])
    ensures h.Finish(h.Queue()[0]).Queue() == h.Queue()[1..]
  {
    assert h.CallOk(bufs, h.asked[h.finished], h.finished);
  }

  lemma IntrKeepsCalls(h: History, bufs: seq<Request>, disk: Disk, b: nat, bufs': seq<Request>, disk': Disk)
    requires h.Ok(bufs, disk) && h.Queue() != [] && b == h.Queue()[0] && Served(b, bufs, disk, bufs', disk')
    ensures h.Finish(b).Ordered() && h.Finish(b).CallsOk(bufs')
  {
    var h' := h.Finish(b);
    assert h.CallOk(bufs, b, h.finished);
    hide History.Sleeping, Pending, Synced, SyncAll, DiskSynced;
    forall c | c in h.turn
      ensures h'.CallOk(bufs', c, h.turn[c])
    {
      assert h.CallOk(bufs, c, h.turn[c]);
      assert h.turn[c] == h.finished ==> c == b;
    }
  }

  lemma IntrKeepsQueue(h: History, bufs: seq<Request>, disk: Disk, b: nat)
    requires h.Ok(bufs, disk) && h.Queue() != [] && b == h.Queue()[0]
    ensures h.Finish(b).InTurn() && h.Finish(b).Sleeping()
  {
    var q, q' := h.Queue(), h.Finish(b).Queue();
    hide History.CallsOk, History.Ordered;
    forall c | c in q && c != b
      ensures c in q'
    {
      var i :| 0 <= i < |q| && q[i] == c;
      assert q'[i - 1] == c;
    }
    forall c | c in q'
      ensures c in q && c != b
    {
      var i :| 0 <= i < |q'| && q'[i] == c;
      assert q[i + 1] == c && h.asked[h.finished + i + 1] == c;
    }
  }

  lemma IntrKeeps(h: History, bufs: seq<Request>, disk: Disk, b: nat, bufs': seq<Request>, disk': Disk)
    requires h.Ok(bufs, disk) && h.Queue() != [] && b == h.Queue()[0] && Served(b, bufs, disk, bufs', disk')
    ensures h.Finish(b).Ok(bufs', disk')
  {
    IntrKeepsCalls(h, bufs, disk, b, bufs', disk');
    IntrKeepsQueue(h, bufs, disk, b);
    assert h.CallOk(bufs, b, h.finished);
    assert h.requests[..h.finished + 1][..h.finished] == h.requests[..h.finished];
    hide History.CallsOk, History.InTurn, History.Sleeping, Synced, DiskSynced;
  }

  /** A requester that has been woken always finds its request done, so iderw's loop runs once. */
  lemma WokenIsDone(h: History, bufs: seq<Request>, disk: Disk, b: nat)
    requires h.Ok(bufs, disk) && b in h.turn && b !in h.asleep
    ensures h.turn[b] < h.finished && b < |bufs| && Done(bufs[b]) && bufs[b] == h.SyncedAt(h.turn[b])
  {
    var i := h.turn[b];
    assert h.CallOk(bufs, b, i);
    assert h.finished <= i ==> b in h.Queue();
  }

  lemma ReturnKeeps(h: History, bufs: seq<Request>, disk: Disk, b: nat)
    requires h.Ok(bufs, disk) && b !in h.asleep
    ensures h.Return(b).Ok(bufs, disk)
  {
    var h' := h.Return(b);
    assert h'.CallsOk(bufs) by {
      hide History.Sleeping, History.InTurn, Synced, SyncAll, Pending;
      forall c | c in h'.turn
        ensures h'.CallOk(bufs, c, h'.turn[c])
      {
        assert h.CallOk(bufs, c, h.turn[c]);
      }
    }
    hide History.CallsOk, SyncAll, Pending;
    forall i | h.finished <= i < |h.asked|
      ensures h.asked[i] != b
    {
      assert h.Queue()[i - h.finished] == h.asked[i];
    }
  }

  lemma StoreKeeps(h: History, bufs: seq<Request>, disk: Disk, b: nat, r: Request)
    requires h.Ok(bufs, disk) && b < |bufs| && b !in h.turn
    ensures h.Ok(bufs[b := r], disk)
  {
    forall c | c in h.turn
      ensures h.CallOk(bufs[b := r], c, h.turn[c])
    {
      assert h.CallOk(bufs, c, h.turn[c]);
    }
  }

  /** Requests on other blocks leave a block alone. */
  lemma {:induction false} OthersLeave(disk: Disk, rs: seq<Request>, i: nat, key: Key)
    requires (forall j :: 0 <= j < |rs| ==> rs[j].key in disk) && i <= |rs| && key in disk
    requires forall j :: i <= j < |rs| ==> rs[j].key != key
    ensures SyncAll(disk, rs)[key] == SyncAll(disk, rs[..i])[key]
    decreases |rs|
  {
    if i < |rs| {
      var init := rs[..|rs| - 1];
      assert init[..i] == rs[..i];
      OthersLeave(disk, init, i, key);
    } else {
      assert rs[..i] == rs;
    }
  }

  /** Unless a later completed call was on the same block, what a completed call left in its buffer is on the disk. */
  lemma DataOnDisk(h: History, bufs: seq<Request>, disk: Disk, i: nat)
    requires h.Ok(bufs, disk) && i < h.finished
    requires forall j :: i < j < h.finished ==> h.requests[j].key != h.requests[i].key
    ensures h.requests[i].key in disk && disk[h.requests[i].key] == h.SyncedAt(i).data
  {
    var rs := h.requests[..h.finished];
    OthersLeave(h.disk0, rs, i + 1, h.requests[i].key);
    assert rs[..i + 1][..i] == h.requests[..i];
  }

  /** A call not back yet, and the disk, in terms of the calls alone. */
  lemma Latest(h: History, bufs: seq<Request>, disk: Disk, i: nat)
    requires h.Ok(bufs, disk) && i < |h.requests|
    ensures disk.Keys == h.disk0.Keys && h.requests[i].key in h.disk0 && h.SyncedAt(i).key == h.requests[i].key
    ensures forall k :: k in disk ==> LatestOn(h.disk0, h.requests, h.finished, k, disk[k])
    ensures h.requests[i].dirty ==> h.SyncedAt(i).data == h.requests[i].data
    ensures !h.requests[i].dirty ==> LatestOn(h.disk0, h.requests, i, h.requests[i].key, h.SyncedAt(i).data)
  {
    forall k | k in disk
      ensures LatestOn(h.disk0, h.requests, h.finished, k, disk[k])
    {
      SyncAllLatest(h.disk0, h.requests, h.finished, k);
    }
    SyncAllLatest(h.disk0, h.requests, i, h.requests[i].key);
  }

  lemma FirstOf(head: nat, qnext: seq<nat>, queue: seq<nat>, b: nat, nil: nat)
    requires Chain(head, qnext, queue + [b], nil)
    ensures head == b <==> queue == []
  {
    HeadIs(head, qnext, queue + [b], nil);
    if queue != [] {
      assert (queue + [b])[0] != (queue + [b])[|queue|];
    }
  }

  class Driver {
    const buf: array<Request>
    const qnext: array<nat>
    var idequeue: nat
    var device: Device
    var disk: Disk
    ghost var h: History

    /** The head of the queue is the single started request, and the history accounts for the disk and the buffers. */
    ghost predicate Valid()
      reads this, buf, qnext
    {
      && buf.Length == qnext.Length && Chain(idequeue, qnext[..], h.Queue(), buf.Length)
      && h.Ok(buf[..], disk) && device == h.Active()
    }

    constructor (bufs: seq<Request>, disk: Disk)
      ensures Valid() && buf[..] == bufs && this.disk == disk && h == History(disk, [], [], 0, map[], {})
      ensures fresh(buf) && fresh(qnext)
    {
      buf := new Request[|bufs|](i requires 0 <= i < |bufs| => bufs[i]);
      qnext := new nat[|bufs|](_ => 0);
      idequeue, device := |bufs|, Idle;
      this.disk, h := disk, History(disk, [], [], 0, map[], {});
    }

    /** iderw up to its first sleep.  The panics are preconditions. */
    method Submit(b: nat)
      requires Valid() && b < buf.Length && b !in h.turn && Pending(buf[b]) && buf[b].key in disk
      modifies qnext, this`idequeue, this`device, this`h
      ensures Valid() && h == old(h).Submit(b, buf[b])
      ensures h.asked == old(h).asked + [b] && h.requests == old(h).requests + [buf[b]] && h.disk0 == old(h).disk0
      ensures h.finished == old(h).finished && h.turn == old(h).turn[b := |old(h).asked|]
      ensures device == if old(h).Queue() == [] then Command(buf[b]) else old(device)
    {
      hide Chain, Command, Pending, History.Ok, History.Queue, History.Active;
      ghost var bufs, q := buf[..], h.Queue();
      assert bufs[b] == buf[b];
      SubmitKeeps(h, bufs, disk, b);
      Append(b, q);
      assert buf[..] == bufs;
      h := h.Submit(b, bufs[b]);
    }

    /** The request joins the end of the queue, and is started if there was no other. */
    method Append(b: nat, ghost queue: seq<nat>)
      requires buf.Length == qnext.Length && b < buf.Length && b !in queue && Chain(idequeue, qnext[..], queue, buf.Length)
      modifies qnext, this`idequeue, this`device
      ensures Chain(idequeue, qnext[..], queue + [b], buf.Length)
      ensures device == if queue == [] then Command(buf[b]) else old(device)
    {
      Enqueue(b, queue);
      FirstOf(idequeue, qnext[..], queue, b, buf.Length);
      if idequeue == b {
        Idestart(b);
      }
    }

    /** "Append b to idequeue." */
    method Enqueue(b: nat, ghost queue: seq<nat>)
      requires buf.Length == qnext.Length && b < buf.Length && b !in queue && Chain(idequeue, qnext[..], queue, buf.Length)
      modifies qnext, this`idequeue
      ensures Chain(idequeue, qnext[..], queue + [b], buf.Length)
    {
      ghost var n0, nil: nat := qnext[..], buf.Length;
      qnext[b] := buf.Length;
      var last, cur := buf.Length, idequeue;
      ghost var p := 0;
      while cur != buf.Length
        invariant p <= |queue| && cur == NextIn(queue, p, buf.Length) && qnext[..] == n0[b := nil]
        invariant last == if p == 0 then buf.Length else queue[p - 1]
        decreases |queue| - p
      {
        assert LinkTo(n0, queue, p, buf.Length);
        last, cur, p := cur, qnext[cur], p + 1;
      }
      ChainAppend(idequeue, n0, queue, buf.Length, b);
      if last == buf.Length {
        idequeue := b;
        assert queue + [b] == [b];
      } else {
        qnext[last] := b;
      }
    }

    method Idestart(b: nat)
      requires b < buf.Length
      modifies this`device
      ensures device == Command(buf[b])
      ensures if buf[b].dirty then device == Writing(buf[b].key, buf[b].data) else device == Reading(buf[b].key)
    {
      device := if buf[b].dirty then Writing(buf[b].key, buf[b].data) else Reading(buf[b].key);
    }

    /** The disk completes its command and interrupts: the head request completes exactly as the synchronous
      * driver would have handled it now, and the next one is started.  Other interrupts are ignored.
      */
    method Ideintr()
      requires Valid()
      modifies buf, this`disk, this`idequeue, this`device, this`h
      ensures Valid()
      ensures old(h).Queue() == [] ==> buf[..] == old(buf[..]) && disk == old(disk) && h == old(h)
      ensures old(h).Queue() != [] ==> var b := old(h).Queue()[0];
        && Served(b, old(buf[..]), old(disk), buf[..], disk) && h == old(h).Finish(b)
        && h.finished == old(h).finished + 1 && h.requests == old(h).requests && h.asked == old(h).asked && h.turn == old(h).turn
    {
      HeadIs(idequeue, qnext[..], h.Queue(), buf.Length);
      var b := idequeue;
      if b == buf.Length {
        return;
      }
      Finish(b);
      StartNext();
    }

    /** Everything up to starting the next request: the first one leaves the queue, and its buffer is done. */
    method Finish(b: nat)
      requires Valid() && h.Queue() != [] && b == idequeue == h.Queue()[0]
      modifies buf, this`disk, this`idequeue, this`h
      ensures Chain(idequeue, qnext[..], h.Queue(), buf.Length) && h.Ok(buf[..], disk)
      ensures Served(b, old(buf[..]), old(disk), buf[..], disk) && h == old(h).Finish(b)
    {
      ghost var bufs, d := buf[..], disk;
      HeadCall(h, bufs, d);
      ChainPop(idequeue, qnext[..], h.Queue(), buf.Length);
      hide *;
      idequeue := qnext[b];
      Complete(b);
      IntrKeeps(h, bufs, d, b, buf[..], disk);
      h := h.Finish(b);
    }

    /** "Start disk on next buf in queue." */
    method StartNext()
      requires buf.Length == qnext.Length && Chain(idequeue, qnext[..], h.Queue(), buf.Length) && h.Ok(buf[..], disk)
      modifies this`device
      ensures device == h.Active()
    {
      HeadIs(idequeue, qnext[..], h.Queue(), buf.Length);
      device := Idle;
      if idequeue != buf.Length {
        HeadCall(h, buf[..], disk);
        Idestart(idequeue);
      }
    }

    /** The device's transfer and the handler's part in it: data that were read go to the buffer, and the flags
      * become valid and clean.
      */
    method Complete(b: nat)
      requires b < buf.Length && device == Command(buf[b]) && buf[b].key in disk
      modifies buf, this`disk
      ensures Served(b, old(buf[..]), old(disk), buf[..], disk)
    {
      if device.Writing? {
        disk := disk[device.key := device.data];
      }
      if !buf[b].dirty {
        buf[b] := buf[b].(data := disk[device.key]);
      }
      buf[b] := buf[b].(valid := true, dirty := false);
    }

    /** iderw's return, after its requester was woken.  The buffer's flags and data are those the in-memory driver
      * leaves when it is given the same requests in the order in which iderw was called, and so is the disk: a dirty
      * buffer keeps its data; any other has the data of the last write to its block called for before it; every block of
      * the disk holds the data of the last completed write to it.
      */
    method Return(b: nat)
      requires Valid() && b in h.turn && b !in h.asleep
      modifies this`h
      ensures Valid() && h == old(h).Return(b) && b < buf.Length && Done(buf[b])
      ensures var i := old(h).turn[b];
        && i < h.finished && h.asked[i] == b && buf[b] == h.SyncedAt(i)
        && buf[b].key == h.requests[i].key && h.turn == old(h).turn - {b}
        && disk == SyncAll(h.disk0, h.requests[..h.finished])
        && ((forall j :: i < j < h.finished ==> h.requests[j].key != buf[b].key) ==>
             buf[b].key in disk && disk[buf[b].key] == buf[b].data)
      ensures var i := old(h).turn[b]; h.requests[i].dirty ==> buf[b].data == h.requests[i].data
      ensures var i := old(h).turn[b];
        !h.requests[i].dirty ==> buf[b].key in h.disk0 && LatestOn(h.disk0, h.requests, i, buf[b].key, buf[b].data)
      ensures disk.Keys == h.disk0.Keys
      ensures forall k :: k in disk ==> LatestOn(h.disk0, h.requests, h.finished, k, disk[k])
    {
      ghost var i := h.turn[b];
      Latest(h, buf[..], disk, i);
      WokenIsDone(h, buf[..], disk, b);
      ReturnKeeps(h, buf[..], disk, b);
      if forall j :: i < j < h.finished ==> h.requests[j].key != h.requests[i].key {
        DataOnDisk(h, buf[..], disk, i);
      }
      h := h.Return(b);
    }

    /** The holder of a buffer that is not in the driver's hands changes it. */
    method Store(b: nat, r: Request)
      requires Valid() && b < buf.Length && b !in h.turn
      modifies buf
      ensures Valid() && buf[..] == old(buf[..])[b := r]
    {
      StoreKeeps(h, buf[..], disk, b, r);
      buf[b] := r;
    }
  }
}
