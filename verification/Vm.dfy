/** kalloc.c and the address spaces of vm.c. */
module Vm {
  import opened VmModel

  /** kalloc has nothing to give. */
  ghost predicate NoFree(owner: Uses) {
    forall a :: a in owner ==> owner[a] != Free
  }

  /** PGROUNDDOWN(x) / PGSIZE */
  function PageOf(x: nat): nat {
    x / PGSIZE
  }

  ghost function HeldPages(lo: nat, hi: nat): (r: Uses)
    ensures forall a :: a in r <==> lo <= a < hi
    ensures forall a :: a in r ==> r[a] == Held
  {
    if hi <= lo then map[] else HeldPages(lo, hi - 1)[hi - 1 := Held]
  }

  ghost predicate SameSpace(m0: seq<Page>, m1: seq<Page>, d: nat) {
    d < |m0| && d < |m1| && forall v :: 0 <= v < NVPN ==> Lookup(m1, d, v) == Lookup(m0, d, v)
  }

  class Memory {
    var mem: seq<Page>
    var freelist: nat
    ghost var owner: Uses
    ghost var free: seq<nat>

    ghost predicate Kmem()
      reads this
    {
      ListOk(mem, owner, free, freelist)
    }

    /** Free pages, directories, tables and frames in order. */
    ghost predicate Valid()
      reads this
    {
      Kmem() && SpacesOk(mem, owner)
    }

    /** The entries of directory d with a page table. */
    ghost function Has(d: nat): set<nat>
      reads this
    {
      if d < |mem| then Tables(mem[d]) else {}
    }

    /** The free pages and the page tables of d: mapping pages that are not d's frames does not change their number. */
    ghost function Stock(d: nat): nat
      reads this
    {
      |free| + |Has(d)|
    }

    /** In the middle of an operation on directory d. */
    ghost predicate Working(d: nat)
      reads this
    {
      Kmem() && DirOk(mem, owner, d)
    }

    /** Before kinit: nothing is free, and the pages from lo on are still to be handed to the allocator. */
    constructor (mem: seq<Page>, ghost lo: nat)
      requires |mem| == NPAGES && 0 < lo
      ensures Valid() && this.mem == mem && forall a :: a in owner <==> lo <= a < NPAGES
      ensures forall a :: a in owner ==> owner[a] == Held
    {
      this.mem, freelist := mem, 0;
      owner, free := HeldPages(lo, NPAGES), [];
    }

    /** freerange, which kinit1 and kinit2 call: every whole page of [vstart, vend) becomes free. */
    method Freerange(vstart: nat, vend: nat)
      requires Valid() && vend <= PHYSTOP
      requires forall a :: Up(vstart) <= a < PageOf(vend) ==> a in owner && owner[a] == Held
      modifies this`mem, this`freelist, this`owner, this`free
      ensures Valid() && owner.Keys == old(owner).Keys
      ensures forall a :: a in owner ==> owner[a] == if Up(vstart) <= a < PageOf(vend) then Free else old(owner)[a]
      ensures UsedSame(mem, owner, old(mem), owner)
    {
      ghost var m0, o0, lo, hi := mem, owner, Up(vstart), PageOf(vend);
      var p := Up(vstart);
      PageFits(vend, p);
      assert Freeing(m0, o0, lo, p);
      hide *;
      while (p + 1) * PGSIZE <= vend
        invariant lo <= p && (p < hi <==> (p + 1) * PGSIZE <= vend) && (p <= hi || p == lo) && Freeing(m0, o0, lo, p)
        decreases hi - p
      {
        FreeReady(m0, o0, lo, p, hi);
        ghost var m1, o1 := mem, owner;
        Kfree(p);
        FreeMore(m0, o0, m1, o1, lo, p);
        p := p + 1;
        PageFits(vend, p);
      }
      FreeingDone(m0, o0, lo, hi, p);
    }

    /** Part-way through freerange. */
    ghost predicate Freeing(m0: seq<Page>, o0: Uses, lo: nat, p: nat)
      reads this
    {
      Valid() && FreedTo(m0, o0, mem, owner, lo, p)
    }

    lemma FreeingDone(m0: seq<Page>, o0: Uses, lo: nat, hi: nat, p: nat)
      requires Freeing(m0, o0, lo, p) && lo <= p && (p == hi || (p == lo && hi <= lo))
      ensures Valid() && owner.Keys == o0.Keys && UsedSame(mem, owner, m0, owner)
      ensures forall a :: a in owner ==> owner[a] == if lo <= a < hi then Free else o0[a]
    {
    }

    lemma FreeReady(m0: seq<Page>, o0: Uses, lo: nat, p: nat, hi: nat)
      requires Freeing(m0, o0, lo, p) && lo <= p < hi && forall a :: lo <= a < hi ==> a in o0 && o0[a] == Held
      ensures Kmem() && p in owner && owner[p] == Held && p < |mem| && SpacesOk(mem, owner)
      ensures FreedTo(m0, o0, mem, owner, lo, p)
    {
    }

    lemma FreeMore(m0: seq<Page>, o0: Uses, m1: seq<Page>, o1: Uses, lo: nat, p: nat)
      requires Kmem() && SpacesOk(m1, o1) && p in o1 && o1[p] == Held && p < |m1| == |mem|
      requires mem == m1[p := mem[p]] && owner == o1[p := Free] && lo <= p
      requires FreedTo(m0, o0, m1, o1, lo, p)
      ensures Freeing(m0, o0, lo, p + 1)
    {
      FreedKeepsSpaces(m1, o1, mem, owner, p);
      forall a | a in owner
        ensures a < |mem| && UsedSameAt(mem, owner, m0, owner, a)
      {
        assert a in o1 && UsedSameAt(m1, o1, m0, o1, a);
      }
    }

    /** kalloc; 0 when no page is free. */
    method Kalloc() returns (r: nat)
      requires Kmem()
      modifies this`freelist, this`owner, this`free
      ensures Kmem()
      ensures r == 0 ==> owner == old(owner) && free == old(free) && freelist == old(freelist) && NoFree(owner)
      ensures r != 0 <==> 0 < |old(free)|
      ensures r != 0 ==> |free| == |old(free)| - 1
      ensures r != 0 ==> r in old(owner) && old(owner)[r] == Free && owner == old(owner)[r := Held]
    {
      r := freelist;
      if r != 0 {
        TakeKeepsList(mem, owner, free, freelist);
        var next := mem[r].w[0];
        freelist := if next == NONE then 0 else next.pfn - KVPN;
        owner, free := owner[r := Held], free[1..];
      } else if free != [] {
        TakeKeepsList(mem, owner, free, freelist);
      }
    }

    /** kfree.  Its panic, an address outside the range handed out, is excluded by a in owner. */
    method Kfree(a: nat)
      requires Kmem() && a in owner && owner[a] != Free
      modifies this`mem, this`freelist, this`owner, this`free
      ensures Kmem() && owner == old(owner)[a := Free]
      ensures old(freelist) < NPAGES && a < |old(mem)| && mem == old(mem)[a := RunPage(old(freelist))]
    {
      PutKeepsList(mem, owner, free, freelist, a);
      var junk: Page := RunPage(freelist);
      mem := mem[a := junk];
      freelist := a;
      owner, free := owner[a := Free], [a] + free;
    }

    /** walkpgdir: the page table with the entry for page v, 0 when there is none. */
    method Walk(d: nat, v: nat, alloc: bool) returns (t: nat)
      requires Working(d) && v < NVPN
      modifies this`mem, this`freelist, this`owner, this`free
      ensures Working(d) && SameSpace(old(mem), mem, d) && Grew(old(mem), old(owner), mem, owner, d, {})
      ensures t == 0 ==> !Present(mem[d].w[Pdx(v)]) && (alloc ==> NoFree(owner))
      ensures t == 0 || !alloc ==> mem == old(mem) && owner == old(owner) && free == old(free) && freelist == old(freelist)
      ensures alloc ==> Paid(old(Stock(d)), old(Has(d)), Stock(d), Has(d), 0, {Pdx(v)}, t != 0)
      ensures t != d || t == 0
      ensures t != 0 ==> Present(mem[d].w[Pdx(v)]) && mem[d].w[Pdx(v)].pfn == t < |mem| && Lookup(mem, d, v) == mem[t].w[Ptx(v)]
    {
      var pde := mem[d].w[Pdx(v)];
      if Present(pde) {
        TableOf(mem, owner, d, Pdx(v));
        return pde.pfn;
      }
      if !alloc {
        return 0;
      }
      t := MakeTable(d, Pdx(v));
    }

    lemma WorkingDir(d: nat)
      requires Working(d)
      ensures d < |mem| && PagesOk(mem, owner) && d in owner && owner[d] == Dir
    {
    }

    /** walkpgdir's allocation of a page table. */
    method MakeTable(d: nat, i: nat) returns (t: nat)
      requires Working(d) && i < NPTE && !Present(mem[d].w[i])
      modifies this`mem, this`freelist, this`owner, this`free
      ensures Working(d) && SameSpace(old(mem), mem, d) && Grew(old(mem), old(owner), mem, owner, d, {})
      ensures t == 0 ==> mem == old(mem) && owner == old(owner) && free == old(free) && freelist == old(freelist)
      ensures t == 0 ==> NoFree(owner)
      ensures t != 0 ==> Present(mem[d].w[i]) && mem[d].w[i].pfn == t < |mem| && t != d
      ensures Paid(old(Stock(d)), old(Has(d)), Stock(d), Has(d), 0, {i}, t != 0)
    {
      hide DirOk, Grew, SameSpace, ListOk, Tables, Paid;
      ghost var m0, o0 := mem, owner;
      WorkingDir(d);
      t := Kalloc();
      if t == 0 {
        Untouched(d);
        NoTablePaid(mem[d], i);
        return;
      }
      PaidTable(mem[d], i, Entry(t, PTE_P + PTE_W + PTE_U), |free| + 1);
      NewTable(m0, o0, d, i, t);
      ghost var o1 := owner;
      mem := mem[t := ZeroPage()];
      var dir: Page := RawPage(mem[d].w[i := Entry(t, PTE_P + PTE_W + PTE_U)]);
      mem := mem[d := dir];
      owner := owner[t := Table(d, i)];
      assert mem == Tabled(m0, d, i, t) && owner == o0[t := Table(d, i)];
      assert o0[d] == Dir by {
        IsDir(m0, o0, d);
      }
      ListFrame(m0, o1, mem, owner, free, freelist);
    }

    /** The body of mappages' loop; its panic "remap" is excluded by the third precondition. */
    method MapPage(d: nat, v: nat, pfn: Pfn, perm: Flags, ghost given: set<nat>) returns (ok: bool)
      requires Working(d) && v < NVPN && DataPages(owner, given)
      requires v < KVPN ==> pfn in given && pfn in owner && owner[pfn] == Held
      requires !Present(Lookup(mem, d, v))
      modifies this`mem, this`freelist, this`owner, this`free
      ensures Working(d) && Grew(old(mem), old(owner), mem, owner, d, given) && DataPages(owner, given)
      ensures d < |mem| && d < |old(mem)|
      ensures ok ==> Mapped(old(mem), mem, d, v, v + 1, pfn, perm)
      ensures !ok ==> NoFree(owner) && SameSpace(old(mem), mem, d)
      ensures StillHeld(old(owner), owner, pfn, if ok then pfn + 1 else pfn)
      ensures Paid(old(Stock(d)), old(Has(d)), Stock(d), Has(d), 0, {Pdx(v)}, ok)
    {
      hide DirOk, Grew, ListOk, DataPages;
      ghost var m0, o0 := mem, owner;
      var t := Walk(d, v, true);
      ghost var m1, o1 := mem, owner;
      GrewGiven(m0, o0, m1, o1, d, given);
      HeldKept(m0, o0, m1, o1, d, pfn);
      ok := t != 0;
      if ok {
        ghost var e := Entry(pfn, WithP(perm));
        assert Lookup(m1, d, v) == Lookup(m0, d, v);
        EnterGrew(m1, o1, d, v, e, given, free, freelist);
        var tab: Page := RawPage(mem[t].w[Ptx(v) := Entry(pfn, WithP(perm))]);
        mem := mem[t := tab];
        owner := Entered(owner, d, v, e);
        assert mem == Stored(m1, d, v, e);
        GrewTrans(m0, o0, m1, o1, mem, owner, d, given);
        MappedOne(m0, m1, mem, d, v, pfn, perm);
        HeldEntered(o0, o1, d, v, e);
      }
    }

    /** mappages for va, size and a page-aligned physical address.  Exactly the pages of the range are mapped,
      * to consecutive page numbers; on failure an initial part of them, and no page is free.
      */
    method Mappages(d: nat, va: nat, size: nat, pfn: nat, perm: Flags, ghost given: set<nat>) returns (ok: bool, ghost m: nat)
      requires Working(d) && DataPages(owner, given) && 0 < size && va + size <= 0x100000000
      requires pfn + (PageOf(va + size - 1) - PageOf(va)) < 0x100000
      requires forall u :: PageOf(va) <= u <= PageOf(va + size - 1) ==>
        !Present(Lookup(mem, d, u)) && FrameReady(owner, given, pfn, PageOf(va), u)
      modifies this`mem, this`freelist, this`owner, this`free
      ensures Working(d) && Grew(old(mem), old(owner), mem, owner, d, given) && DataPages(owner, given)
      ensures PageOf(va) <= m <= PageOf(va + size - 1) + 1 && (ok <==> m == PageOf(va + size - 1) + 1)
      ensures Mapped(old(mem), mem, d, PageOf(va), m, pfn, perm)
      ensures !ok ==> NoFree(owner)
      ensures StillHeld(old(owner), owner, pfn, pfn + (m - PageOf(va)))
      ensures Paid(old(Stock(d)), old(Has(d)), Stock(d), Has(d), 0, Pdes(PageOf(va), PageOf(va + size - 1) + 1), ok)
      ensures ok <==> |old(free)| >= |Pdes(PageOf(va), PageOf(va + size - 1) + 1) - old(Has(d))|
    {
      var first, last := PageOf(va), PageOf(va + size - 1);
      ghost var m0, o0, n0, h0 := mem, owner, |free|, Has(d);
      assert first <= last < NVPN && Stock(d) == n0 + |h0|;
      hide *;
      ok, m := MapRange(d, first, last, pfn, perm, given);
      MapCost(d, n0, h0, Pdes(first, last + 1), ok);
      MappingEnds(m0, o0, mem, owner, d, first, last, pfn, perm, given, m);
    }

    /** mappages' loop over the pages from first to last. */
    method MapRange(d: nat, first: nat, last: nat, pfn: nat, perm: Flags, ghost given: set<nat>)
      returns (ok: bool, ghost m: nat)
      requires Working(d) && DataPages(owner, given) && first <= last < NVPN && pfn + (last - first) < 0x100000
      requires forall u :: first <= u <= last ==> !Present(Lookup(mem, d, u)) && FrameReady(owner, given, pfn, first, u)
      modifies this`mem, this`freelist, this`owner, this`free
      ensures Kmem() && Mapping(old(mem), old(owner), mem, owner, d, first, last, pfn, perm, given, m)
      ensures (ok <==> m == last + 1) && (!ok ==> NoFree(owner))
      ensures Paid(old(Stock(d)), old(Has(d)), Stock(d), Has(d), 0, Pdes(first, last + 1), ok)
    {
      hide Mapping, Paid, Stock, Has, ListOk, DirOk, DataPages, FrameReady, Lookup, Pdes, NoFree;
      ghost var m0, o0, s0, h0 := mem, owner, Stock(d), Has(d);
      var a, pa := first, pfn;
      StartMapping(d, first, last, pfn, perm, given);
      PaidStart(s0, h0, first);
      while true
        invariant first <= a <= last && pa == pfn + (a - first)
        invariant Kmem() && Mapping(m0, o0, mem, owner, d, first, last, pfn, perm, given, a)
        invariant Paid(s0, h0, Stock(d), Has(d), 0, Pdes(first, a), true)
        decreases last - a
      {
        ghost var s1, h1 := Stock(d), Has(d);
        ok := MapNext(d, first, last, pfn, perm, given, a, pa, m0, o0);
        PaidNext(s0, h0, s1, h1, Stock(d), Has(d), 0, 0, first, a, last + 1, ok);
        if !ok {
          return false, a;
        }
        if a == last {
          break;
        }
        a := a + 1;
        pa := pa + 1;
      }
      return true, last + 1;
    }

    method MapNext(d: nat, ghost first: nat, ghost last: nat, ghost pfn: nat, perm: Flags, ghost given: set<nat>, a: nat,
                   pa: nat, ghost m0: seq<Page>, ghost o0: Uses)
      returns (ok: bool)
      requires first <= a <= last && pa == pfn + (a - first)
      requires Kmem() && Mapping(m0, o0, mem, owner, d, first, last, pfn, perm, given, a)
      modifies this`mem, this`freelist, this`owner, this`free
      ensures Kmem() && Mapping(m0, o0, mem, owner, d, first, last, pfn, perm, given, if ok then a + 1 else a)
      ensures !ok ==> NoFree(owner)
      ensures Paid(old(Stock(d)), old(Has(d)), Stock(d), Has(d), 0, {Pdx(a)}, ok)
    {
      MappingNow(m0, o0, mem, owner, d, first, last, pfn, perm, given, a);
      ghost var m1, o1 := mem, owner;
      hide DirOk, ListOk, Grew, Mapped, DataPages, StillHeld, Lookup, Mapping, SameSpace, NoFree, Paid, Stock, Has;
      ok := MapPage(d, a, pa, perm, given);
      if ok {
        MappingMore(m0, o0, m1, o1, mem, owner, d, first, last, pfn, perm, given, a);
      } else {
        MappingFails(m0, o0, m1, o1, mem, owner, d, first, last, pfn, perm, given, a);
      }
    }

    lemma StartMapping(d: nat, first: nat, last: nat, pfn: nat, perm: Flags, given: set<nat>)
      requires Working(d) && DataPages(owner, given) && first <= last < NVPN && pfn + (last - first) < 0x100000
      requires forall u :: first <= u <= last ==> !Present(Lookup(mem, d, u)) && FrameReady(owner, given, pfn, first, u)
      ensures Mapping(mem, owner, mem, owner, d, first, last, pfn, perm, given, first)
    {
    }

    /** The body of deallocuvm's loop for a present page: kfree(v), *pte = 0.  "kfree", the panic on page 0, is
      * unreachable.
      */
    method Unmap(d: nat, v: nat, t: nat)
      requires Working(d) && v < KVPN && t == mem[d].w[Pdx(v)].pfn < |mem| && Present(mem[d].w[Pdx(v)])
      requires Present(mem[t].w[Ptx(v)])
      modifies this`mem, this`freelist, this`owner, this`free
      ensures Working(d) && Shrank(old(mem), old(owner), mem, owner, d)
      ensures Dropped(old(mem), old(owner), mem, owner, d, v, v + 1)
    {
      ghost var m0, o0 := mem, owner;
      var pa := mem[t].w[Ptx(v)].pfn;
      assert Lookup(mem, d, v) == mem[t].w[Ptx(v)];
      FrameOf(mem, owner, d, v);
      HeadInRange(mem, owner, free, freelist);
      ghost var junk: Page := RunPage(freelist);
      UnmapKeeps(m0, o0, d, v, pa, junk);
      TableOf(mem, owner, d, Pdx(v));
      UnmapShrank(m0, o0, d, v, pa, junk);
      hide DirOk, Shrank, Dropped;
      assert pa != 0;
      Kfree(pa);
      ghost var m1 := mem;
      assert t != pa;
      var tab: Page := RawPage(mem[t].w[Ptx(v) := NONE]);
      mem := mem[t := tab];
      assert mem == Stored(m0[pa := junk], d, v, NONE);
      ListFrame(m1, owner, mem, owner, free, freelist);
    }

    /** deallocuvm.  A directory entry without a table is skipped in one step; the pages freed are exactly the
      * frames of the user pages from PGROUNDUP(newsz) up to oldsz, as if every page had been looked at.
      */
    method Deallocuvm(d: nat, oldsz: nat, newsz: nat) returns (r: nat)
      requires Working(d) && oldsz <= KERNBASE
      modifies this`mem, this`freelist, this`owner, this`free
      ensures Working(d) && Shrank(old(mem), old(owner), mem, owner, d)
      ensures r == if newsz >= oldsz then oldsz else newsz
      ensures Dropped(old(mem), old(owner), mem, owner, d, Up(newsz), Up(oldsz))
    {
      ghost var m0, o0 := mem, owner;
      NothingDropped(d, Up(newsz));
      if newsz >= oldsz {
        NothingDropped(d, Up(oldsz));
        DroppedEmpty(m0, o0, d, Up(newsz), Up(oldsz));
        return oldsz;
      }
      ghost var lo, hi := Up(newsz), Up(oldsz);
      var a := Up(newsz);
      UpBelow(oldsz, a);
      UpOrder(newsz, oldsz);
      assert Dropping(m0, o0, mem, owner, d, lo, hi, a);
      hide *;
      while a * PGSIZE < oldsz
        invariant a * PGSIZE < oldsz <==> a < hi
        invariant Kmem() && Dropping(m0, o0, mem, owner, d, lo, hi, a)
        decreases hi - a
      {
        a := DropNext(d, a, m0, o0, lo, hi);
        UpBelow(oldsz, a);
      }
      r := newsz;
      DroppingDone(m0, o0, mem, owner, d, lo, hi, a);
    }

    /** The body of deallocuvm's loop; a' is where the next pass starts. */
    method DropNext(d: nat, a: nat, ghost m0: seq<Page>, ghost o0: Uses, ghost lo: nat, ghost hi: nat) returns (a': nat)
      requires Kmem() && Dropping(m0, o0, mem, owner, d, lo, hi, a) && a < hi
      modifies this`mem, this`freelist, this`owner, this`free
      ensures a < a' && Kmem() && Dropping(m0, o0, mem, owner, d, lo, hi, a')
    {
      ghost var m1, o1 := mem, owner;
      DroppingNow(m0, o0, m1, o1, d, lo, hi, a);
      hide DirOk, ListOk, Grew, Shrank, Dropped, Dropping, SameSpace, Lookup;
      var pte := Walk(d, a, false);
      if pte == 0 {
        a' := (Pdx(a) + 1) * NPTE - 1;
        SkipTable(m0, o0, m1, o1, d, lo, hi, a, a');
      } else {
        a' := a;
        if Present(mem[pte].w[Ptx(a)]) {
          Unmap(d, a, pte);
          DroppingMore(m0, o0, m1, o1, mem, owner, d, lo, hi, a);
        } else {
          SkipPage(m0, o0, m1, o1, d, lo, hi, a);
        }
      }
      a' := a' + 1;
    }

    lemma NothingDropped(d: nat, lo: nat)
      requires Working(d)
      ensures Shrank(mem, owner, mem, owner, d) && Dropped(mem, owner, mem, owner, d, lo, lo)
    {
    }

    /** Part-way through freevm's loop: the frames and the tables below entry i of d are free. */
    ghost predicate Dying(d: nat, m1: seq<Page>, o1: Uses, i: nat)
      reads this
    {
      && Kmem() && DirOk(m1, o1, d) && owner.Keys == o1.Keys && mem[d] == m1[d]
      && (forall a :: a in o1 ==> owner[a] == if TableBelow(o1[a], d, i) then Free else o1[a])
      && (forall a :: a in o1 && owner[a] != Free ==> mem[a] == m1[a])
    }

    /** freevm: every page of d, the directory included, becomes free, and no other page changes. */
    method Freevm(d: nat)
      requires Working(d)
      modifies this`mem, this`freelist, this`owner, this`free
      ensures Kmem() && Shrank(old(mem), old(owner), mem, owner, d)
      ensures forall a :: a in old(owner) ==> a in owner && owner[a] == if Of(old(owner)[a], a, d) then Free else old(owner)[a]
    {
      ghost var m0, o0 := mem, owner;
      var _ := Deallocuvm(d, KERNBASE, 0);
      ghost var m1, o1 := mem, owner;
      var i := 0;
      while i < NPTE
        invariant 0 <= i <= NPTE && Dying(d, m1, o1, i)
      {
        FreeTable(d, m1, o1, i);
        i := i + 1;
        hide DirOk, ListOk, Dying, Shrank, Dropped;
      }
      AllDying(d, m1, o1);
      Kfree(d);
      AllFreed(m0, o0, m1, o1, mem, owner, d);
    }

    /** The body of freevm's loop. */
    method FreeTable(d: nat, ghost m1: seq<Page>, ghost o1: Uses, i: nat)
      requires Dying(d, m1, o1, i) && i < NPTE
      modifies this`mem, this`freelist, this`owner, this`free
      ensures Dying(d, m1, o1, i + 1)
    {
      hide DirOk, Lookup, PdeOk, InPlace;
      IsDir(m1, o1, d);
      assert |mem| == NPAGES;
      if Present(mem[d].w[i]) {
        TableOf(m1, o1, d, i);
        var t := mem[d].w[i].pfn;
        OnlyTable(m1, o1, d, i);
        assert owner[t] == Table(d, i);
        hide ListOk;
        Kfree(t);
      } else {
        OnlyTable(m1, o1, d, i);
      }
    }

    lemma AllDying(d: nat, m1: seq<Page>, o1: Uses)
      requires Dying(d, m1, o1, NPTE)
      ensures Kmem() && d in owner && owner[d] == Dir && owner.Keys == o1.Keys && |mem| == |m1|
      ensures forall a :: a in o1 ==> owner[a] == if o1[a].Table? && o1[a].d == d then Free else o1[a]
      ensures forall a :: a in o1 && owner[a] != Free ==> 0 < a < |mem| && mem[a] == m1[a]
    {
      forall a | a in o1
        ensures o1[a].Table? && o1[a].d == d ==> TableBelow(o1[a], d, NPTE)
      {
        assert InPlace(m1, d, a, o1[a]);
      }
    }

    /** kalloc, fill with c, mappages for one user page.  f is the page taken, 0 when there was none; when
      * mappages then fails, f is left in the caller's hands.
      */
    method GivePage(d: nat, v: nat, c: Page, perm: Flags) returns (f: nat, ok: bool)
      requires Working(d) && v < KVPN && !Present(Lookup(mem, d, v))
      modifies this`mem, this`freelist, this`owner, this`free
      ensures Working(d)
      ensures f == 0 ==> !ok && mem == old(mem) && owner == old(owner) && NoFree(owner)
      ensures f != 0 ==> f in old(owner) && old(owner)[f] == Free && f in owner
      ensures ok ==> Grew(old(mem), old(owner), mem, owner, d, {}) && owner[f] == Frame(d, v) && f < |mem| && mem[f] == c
      ensures ok ==> Mapped(old(mem), mem, d, v, v + 1, f, perm)
      ensures f != 0 && !ok ==> owner[f] == Held && SameSpace(old(mem), mem, d) && NoFree(owner)
      ensures f != 0 && !ok ==> Grew(old(mem), old(owner), mem, owner[f := Free], d, {})
      ensures Paid(old(Stock(d)), old(Has(d)), Stock(d), Has(d), 1, {Pdx(v)}, ok)
    {
      hide DirOk, Grew, ListOk, DataPages, Lookup, SameSpace, Paid, Tables, Mapped, NoFree, Pdes;
      ghost var m0, o0, h0 := mem, owner, Has(d);
      f := Kalloc();
      ok := false;
      if f == 0 {
        NoFramePaid(h0, {Pdx(v)});
        return;
      }
      ghost var o1 := owner;
      HeldPage(m0, o0, d, f, c, free, freelist, v);
      PageBytes(v);
      mem := mem[f := c];
      ghost var m1, s1 := mem, Stock(d);
      assert Has(d) == h0 && s1 + 1 == old(Stock(d)) by {
        IsDir(m0, o0, d);
      }
      ghost var m;
      ok, m := Mappages(d, v * PGSIZE, PGSIZE, f, perm, {f});
      PdesOne(v);
      PaidFrame(s1, h0, Stock(d), Has(d), {Pdx(v)}, ok);
      if ok {
        FreshMapped(m0, o0, m1, mem, owner, d, v, f, c, perm);
      } else {
        FreshUnmapped(m0, o0, m1, mem, owner, d, v, f, c, perm);
      }
    }

    /** kfree of a page in hand, in the middle of an operation on d. */
    method GiveBack(d: nat, f: nat)
      requires Working(d) && f in owner && owner[f] == Held
      modifies this`mem, this`freelist, this`owner, this`free
      ensures Working(d) && owner == old(owner)[f := Free]
      ensures f < |mem| && f < |old(mem)| && mem == old(mem)[f := mem[f]]
      ensures SameSpace(old(mem), mem, d)
    {
      ghost var m0, o0 := mem, owner;
      HeadInRange(mem, owner, free, freelist);
      GivenBack(m0, o0, d, f, RunPage(freelist));
      hide DirOk, SameSpace;
      Kfree(f);
    }

    /** allocuvm.  On success the new pages are mapped to distinct zeroed frames, user-writable; on failure (0,
      * not ok) every mapping and every frame is as it was, and only empty page tables may have been added.
      * Growth succeeds exactly when there is a free page for each new frame and each missing page table.
      * The pages must not be mapped: that is the panic "remap".
      */
    method Allocuvm(d: nat, oldsz: nat, newsz: nat) returns (r: nat, ok: bool)
      requires Working(d)
      requires newsz < KERNBASE ==> forall u :: Up(oldsz) <= u < Up(newsz) && u < NVPN ==> !Present(Lookup(mem, d, u))
      modifies this`mem, this`freelist, this`owner, this`free
      ensures Working(d) && Grew(old(mem), old(owner), mem, owner, d, {})
      ensures newsz >= KERNBASE ==> !ok && r == 0 && mem == old(mem) && owner == old(owner)
      ensures newsz < KERNBASE && newsz < oldsz ==> ok && r == oldsz && mem == old(mem) && owner == old(owner)
      ensures ok && oldsz <= newsz ==> r == newsz && Alloced(old(mem), mem, d, Up(oldsz), Up(newsz))
      ensures !ok ==> r == 0 && TablesOnly(old(owner), owner, d) && SamePresent(old(mem), mem, d)
      ensures oldsz <= newsz < KERNBASE ==>
        (ok <==> |old(free)| >= Up(newsz) - Up(oldsz) + |Pdes(Up(oldsz), Up(newsz)) - old(Has(d))|)
      ensures ok && oldsz <= newsz ==>
        |free| == |old(free)| - (Up(newsz) - Up(oldsz)) - |Pdes(Up(oldsz), Up(newsz)) - old(Has(d))|
    {
      hide Grew, Alloced, TablesOnly, SamePresent, Working, Paid, Pdes, Has;
      ghost var h0, n0 := Has(d), |free|;
      NothingAlloced(d, Up(oldsz));
      if newsz >= KERNBASE {
        return 0, false;
      }
      if newsz < oldsz {
        return oldsz, true;
      }
      StartAlloc(d, oldsz, newsz);
      ok := AllocPages(d, oldsz, newsz);
      PaidExactly(n0, h0, |free|, Has(d), Up(newsz) - Up(oldsz), Pdes(Up(oldsz), Up(newsz)), ok);
      return if ok then newsz else 0, ok;
    }

    lemma StartAlloc(d: nat, oldsz: nat, newsz: nat)
      requires Working(d) && oldsz <= newsz < KERNBASE
      requires forall u :: Up(oldsz) <= u < Up(newsz) && u < NVPN ==> !Present(Lookup(mem, d, u))
      ensures Kmem() && Allocating(mem, owner, mem, owner, d, Up(oldsz), Up(newsz), Up(oldsz))
      ensures Up(oldsz) <= Up(newsz) <= KVPN
    {
      UpOrder(oldsz, newsz);
      NothingAlloced(d, Up(oldsz));
      hide Up, Grew, DirOk, ListOk;
    }

    /** allocuvm's loop. */
    method AllocPages(d: nat, oldsz: nat, newsz: nat) returns (ok: bool)
      requires Kmem() && Allocating(mem, owner, mem, owner, d, Up(oldsz), Up(newsz), Up(oldsz))
      requires oldsz <= newsz < KERNBASE && Up(oldsz) <= Up(newsz) <= KVPN
      modifies this`mem, this`freelist, this`owner, this`free
      ensures Working(d) && Grew(old(mem), old(owner), mem, owner, d, {})
      ensures ok ==> Alloced(old(mem), mem, d, Up(oldsz), Up(newsz))
      ensures !ok ==> TablesOnly(old(owner), owner, d) && SamePresent(old(mem), mem, d)
      ensures Paid(old(Stock(d)), old(Has(d)), Stock(d), Has(d), Up(newsz) - Up(oldsz), Pdes(Up(oldsz), Up(newsz)), ok)
    {
      hide Allocating, Grew, Alloced, DirOk, ListOk, TablesOnly, SamePresent, Up, Lookup, Paid, Stock, Has, Pdes;
      ghost var m0, o0, s0, h0 := mem, owner, Stock(d), Has(d);
      ghost var lo, hi := Up(oldsz), Up(newsz);
      PaidStart(s0, h0, lo);
      var a := Up(oldsz);
      UpBelow(newsz, a);
      while a * PGSIZE < newsz
        invariant lo <= a <= hi <= KVPN && (a * PGSIZE < newsz <==> a < hi)
        invariant Kmem() && Allocating(m0, o0, mem, owner, d, lo, hi, a)
        invariant Paid(s0, h0, Stock(d), Has(d), a - lo, Pdes(lo, a), true)
        decreases hi - a
      {
        UpStrict(oldsz, newsz);
        ghost var s1, h1 := Stock(d), Has(d);
        var done := AllocNext(d, a, oldsz, newsz, m0, o0);
        PaidNext(s0, h0, s1, h1, Stock(d), Has(d), 1, a - lo, lo, a, hi, done);
        if !done {
          PaidLess(s0, h0, Stock(d), Has(d), a + 1 - lo, Pdes(lo, hi), hi - lo, Pdes(lo, hi));
          return false;
        }
        a := a + 1;
        UpBelow(newsz, a);
      }
      AllocatingDone(m0, o0, mem, owner, d, lo, hi);
      return true;
    }

    /** The body of allocuvm's loop. */
    method AllocNext(d: nat, a: nat, oldsz: nat, newsz: nat, ghost m0: seq<Page>, ghost o0: Uses) returns (ok: bool)
      requires Kmem() && Allocating(m0, o0, mem, owner, d, Up(oldsz), Up(newsz), a) && a < Up(newsz)
      requires oldsz < newsz < KERNBASE
      modifies this`mem, this`freelist, this`owner, this`free
      ensures Kmem()
      ensures ok ==> Allocating(m0, o0, mem, owner, d, Up(oldsz), Up(newsz), a + 1)
      ensures !ok ==> Working(d) && Grew(m0, o0, mem, owner, d, {}) && TablesOnly(o0, owner, d) && SamePresent(m0, mem, d)
      ensures Paid(old(Stock(d)), old(Has(d)), Stock(d), Has(d), 1, {Pdx(a)}, ok)
    {
      ghost var m1, o1, lo, hi := mem, owner, Up(oldsz), Up(newsz);
      ghost var s1, h1 := Stock(d), Has(d);
      AllocatingNow(m0, o0, m1, o1, d, lo, hi, a);
      hide DirOk, ListOk, Grew, Mapped, Allocating, Lookup, SameSpace, NoFree, TablesOnly, SamePresent, Up, Paid, Stock, Has;
      var f;
      f, ok := GivePage(d, a, ZeroPage(), PTE_W + PTE_U);
      if ok {
        AllocatingMore(m0, o0, m1, o1, mem, owner, d, lo, hi, a, f);
      } else {
        GivePageFailed(m0, o0, m1, o1, mem, owner, d, lo, hi, a, f);
        ghost var s2, h2 := Stock(d), Has(d);
        UndoAlloc(d, oldsz, newsz, f, m0, o0, a);
        UnpaidStays(s1, h1, s2, h2, Stock(d), Has(d), 1, {Pdx(a)});
      }
    }

    /** allocuvm out of memory: deallocuvm, then kfree of the page that could not be mapped, if there is one. */
    method UndoAlloc(d: nat, oldsz: nat, newsz: nat, f: nat, ghost m0: seq<Page>, ghost o0: Uses, ghost a: nat)
      requires Working(d) && oldsz < newsz < KERNBASE
      requires f == 0 ==> Allocating(m0, o0, mem, owner, d, Up(oldsz), Up(newsz), a)
      requires f != 0 ==> f in owner && owner[f] == Held
      requires f != 0 ==> Allocating(m0, o0, mem, owner[f := Free], d, Up(oldsz), Up(newsz), a)
      modifies this`mem, this`freelist, this`owner, this`free
      ensures Working(d) && Grew(m0, o0, mem, owner, d, {}) && TablesOnly(o0, owner, d) && SamePresent(m0, mem, d)
    {
      ghost var m2, o2, lo, hi := mem, owner, Up(oldsz), Up(newsz);
      hide DirOk, ListOk, Dropped, Shrank, Allocating, Grew, TablesOnly, SamePresent, SameSpace, Up;
      var _ := Deallocuvm(d, newsz, oldsz);
      if f != 0 {
        ghost var m3, o3 := mem, owner;
        DroppedHeld(m2, o2, m3, o3, d, lo, hi, f);
        assert DirOk(m3, o3, d) && |m3| == NPAGES by {
          IsDir(m3, o3, d);
        }
        GiveBack(d, f);
        DroppedAround(m2, o2, m3, o3, d, lo, hi, f, mem[f]);
        AllocUndone(m0, o0, m2, o2[f := Free], mem, owner, d, lo, hi, a);
      } else {
        AllocUndone(m0, o0, m2, o2, mem, owner, d, lo, hi, a);
      }
    }

    lemma NothingAlloced(d: nat, lo: nat)
      requires Working(d)
      ensures Grew(mem, owner, mem, owner, d, {}) && Alloced(mem, mem, d, lo, lo)
      ensures TablesOnly(owner, owner, d) && SamePresent(mem, mem, d)
    {
    }

    /** setupkvm.  A new directory with the kernel's mappings and nothing else, or 0 with every page's use as
      * it was and no page in use changed.  The directory and 64 page tables are all it needs.
      */
    method Setupkvm(data: nat) returns (pgdir: nat)
      requires Valid() && KVPN + 0x100 < data < KVPN + NPAGES
      modifies this`mem, this`freelist, this`owner, this`free
      ensures Valid() && UsedSame(old(mem), old(owner), mem, owner)
      ensures pgdir == 0 ==> owner == old(owner)
      ensures pgdir != 0 ==> pgdir in old(owner) && old(owner)[pgdir] == Free && pgdir in owner && owner[pgdir] == Dir
      ensures pgdir != 0 ==> Grew(old(mem), old(owner), mem, owner, pgdir, {})
      ensures pgdir != 0 ==> pgdir < |mem| && forall v :: 0 <= v < NVPN ==> Lookup(mem, pgdir, v) == KmapAt(data, v)
      ensures pgdir != 0 <==> |old(free)| >= 65
      ensures pgdir != 0 ==> |free| == |old(free)| - 65 && Has(pgdir) == KernelPdes()
    {
      ghost var m0, o0, n0 := mem, owner, |free|;
      pgdir := Kalloc();
      if pgdir == 0 {
        UsedSameNow(m0, o0);
        return;
      }
      NewDirectory(m0, o0, pgdir, free, freelist, data);
      hide *;
      mem := mem[pgdir := ZeroPage()];
      owner := owner[pgdir := Dir];
      NewPaid(pgdir, n0);
      var k := 0;
      while k < 4
        invariant 0 <= k <= 4 && Kmem() && Kmapping(m0, o0, mem, owner, pgdir, data, k)
        invariant Paid(n0, {}, Stock(pgdir), Has(pgdir), 1, RowPdes(data, k), true)
      {
        ghost var s1, h1 := Stock(pgdir), Has(pgdir);
        var ok := MapRow(pgdir, data, k, m0, o0);
        PaidRow(n0, s1, h1, Stock(pgdir), Has(pgdir), data, k, ok);
        if !ok {
          SetupStarted(m0, o0, mem, owner, pgdir);
          ghost var m1, o1 := mem, owner;
          Freevm(pgdir);
          SetupUndone(m0, o0, m1, o1, mem, owner, pgdir);
          return 0;
        }
        k := k + 1;
      }
      KmapDone(m0, o0, mem, owner, pgdir, data);
      SetupPaid(pgdir, n0, data);
    }

    /** setupkvm's mappages call for row k of kmap. */
    method MapRow(d: nat, data: nat, k: nat, ghost m0: seq<Page>, ghost o0: Uses) returns (ok: bool)
      requires k < 4 && Kmem() && Kmapping(m0, o0, mem, owner, d, data, k)
      modifies this`mem, this`freelist, this`owner, this`free
      ensures Kmem() && Started(m0, o0, mem, owner, d)
      ensures ok ==> Kmapping(m0, o0, mem, owner, d, data, k + 1)
      ensures Paid(old(Stock(d)), old(Has(d)), Stock(d), Has(d), 0, Pdes(KmapStart(data, k), KmapEnd(data, k + 1)), ok)
    {
      hide DirOk, ListOk, Grew, Mapped, StillHeld, Lookup, KmapAt, KMAP, KmapEnd, KmapStart, Paid, Stock, Has, Pdes;
      ghost var m1, o1 := mem, owner;
      var row := KMAP(data)[k];
      RowPages(data, k);
      RowFree(m0, o0, mem, owner, d, data, k);
      ghost var m;
      ok, m := Mappages(d, row.virt, (row.end - row.start) % 0x100000000, row.start / PGSIZE, row.perm, {});
      RowMapped(m0, o0, m1, o1, mem, owner, d, data, k, m);
    }

    /** copyuvm of the first sz bytes of pgdir, whose pages must be there (its two panics).  On success the
      * child maps every page below sz with the parent's flags to a frame of its own holding the parent's bytes,
      * has the kernel's mappings, and nothing else.  On failure every page's use is as it was.  Either way no
      * page that was in use, so neither the parent's tables nor its memory, changes.  It needs what setupkvm
      * needs, a frame for each page and a page table for every NPTE pages, and fails only when these are not there.
      */
    method Copyuvm(pgdir: nat, sz: nat, data: nat) returns (d: nat)
      requires Valid() && KVPN + 0x100 < data < KVPN + NPAGES && sz <= KERNBASE
      requires pgdir in owner && owner[pgdir] == Dir && pgdir < |mem|
      requires forall v :: 0 <= v < Up(sz) && v < NVPN ==> Present(Lookup(mem, pgdir, v))
      modifies this`mem, this`freelist, this`owner, this`free
      ensures Valid() && UsedSame(old(mem), old(owner), mem, owner)
      ensures d == 0 ==> owner == old(owner)
      ensures d != 0 ==> d in old(owner) && old(owner)[d] == Free && d in owner && owner[d] == Dir && d != pgdir
      ensures d != 0 ==> Grew(old(mem), old(owner), mem, owner, d, {})
      ensures d != 0 ==> CopyOf(old(mem), mem, pgdir, d, data, Up(sz))
      ensures d != 0 <==> |old(free)| >= 65 + Up(sz) + (Up(sz) + 1023) / 1024
      ensures d != 0 ==> |free| == |old(free)| - 65 - Up(sz) - (Up(sz) + 1023) / 1024
    {
      hide ListOk, DirOk, SpacesOk, Grew, Shrank, UsedSame, Lookup, Present, KmapAt, CopyOf, Copying, Started, Paid, Pdes, Has,
        KernelPdes, Up;
      ghost var m0, o0 := mem, owner;
      d := Setupkvm(data);
      if d == 0 {
        return;
      }
      UpBelow(sz, 0);
      StartCopying(m0, o0, mem, owner, pgdir, d, data, Up(sz));
      ghost var hi := Up(sz);
      ghost var n1, s1, h1 := |free|, Stock(d), Has(d);
      PaidStart(s1, h1, 0);
      var i := 0;
      while i * PGSIZE < sz
        invariant 0 <= i <= hi <= KVPN && (i * PGSIZE < sz <==> i < hi)
        invariant Kmem() && Copying(m0, o0, mem, owner, pgdir, d, data, hi, i)
        invariant Paid(s1, h1, Stock(d), Has(d), i, Pdes(0, i), true)
      {
        ghost var s2, h2 := Stock(d), Has(d);
        var ok := CopyPage(pgdir, d, data, hi, i, m0, o0);
        PaidNext(s1, h1, s2, h2, Stock(d), Has(d), 1, i, 0, i, hi, ok);
        if !ok {
          CopyUnpaid(n1, Stock(d), Has(d), hi, i + 1);
          SetupStarted(m0, o0, mem, owner, d);
          ghost var m1, o1 := mem, owner;
          Freevm(d);
          SetupUndone(m0, o0, m1, o1, mem, owner, d);
          return 0;
        }
        i := i + 1;
        UpBelow(sz, i);
      }
      CopyingDone(m0, o0, mem, owner, pgdir, d, data, hi);
      CopyPaid(d, n1, hi);
    }

    /** The body of copyuvm's loop. */
    method CopyPage(pgdir: nat, d: nat, ghost data: nat, ghost hi: nat, i: nat, ghost m0: seq<Page>, ghost o0: Uses)
      returns (ok: bool)
      requires Kmem() && Copying(m0, o0, mem, owner, pgdir, d, data, hi, i) && i < hi
      modifies this`mem, this`freelist, this`owner, this`free
      ensures Kmem() && Started(m0, o0, mem, owner, d)
      ensures ok ==> Copying(m0, o0, mem, owner, pgdir, d, data, hi, i + 1)
      ensures Paid(old(Stock(d)), old(Has(d)), Stock(d), Has(d), 1, {Pdx(i)}, ok)
    {
      ghost var m1, o1 := mem, owner;
      ghost var s1, h1 := Stock(d), Has(d);
      CopyingNow(m0, o0, m1, o1, pgdir, d, data, hi, i);
      hide DirOk, ListOk, Grew, Mapped, DataPages, StillHeld, KmapAt, Copying, SameSpace, CopiedAt, Started, Paid, Tables;
      var pte := Walk(pgdir, i, false);
      assert pte != 0;
      var e := mem[pte].w[Ptx(i)];
      assert e == Lookup(m1, pgdir, i);
      var f;
      f, ok := GivePage(d, i, mem[e.pfn], e.flags);
      if ok {
        CopyingMore(m0, o0, m1, o1, mem, owner, pgdir, d, data, hi, i, f);
      } else {
        ghost var s2, h2 := Stock(d), Has(d);
        CopyingStarted(m0, o0, m1, o1, pgdir, d, data, hi, i);
        if f != 0 {
          ghost var m2, o2 := mem, owner;
          GiveBack(d, f);
          HeldBack(m0, o0, m1, o1, m2, o2, mem, d, f);
        }
        UnpaidStays(s1, h1, s2, h2, Stock(d), Has(d), 1, {Pdx(i)});
      }
    }

    lemma MapCost(d: nat, n0: nat, h0: set<nat>, more: set<nat>, ok: bool)
      requires Paid(n0 + |h0|, h0, Stock(d), Has(d), 0, more, ok)
      ensures ok <==> n0 >= |more - h0|
    {
      PaidExactly(n0, h0, |free|, Has(d), 0, more, ok);
    }

    lemma NewPaid(d: nat, n: nat)
      requires d < |mem| && mem[d] == ZeroPage() && |free| == n - 1
      ensures Paid(n, {}, Stock(d), Has(d), 1, {}, true)
    {
      assert Tables(mem[d]) == {};
    }

    lemma SetupPaid(d: nat, n: nat, data: nat)
      requires KVPN + 0x100 < data < KVPN + NPAGES && Paid(n, {}, Stock(d), Has(d), 1, RowPdes(data, 4), true)
      ensures n >= 65 && |free| == n - 65 && Has(d) == KernelPdes()
    {
      AllRows(data);
      KernelPdesSize();
      assert {} + KernelPdes() == KernelPdes();
      hide KernelPdes;
    }

    lemma CopyPaid(d: nat, n: nat, hi: nat)
      requires hi <= KVPN && Paid(n + |KernelPdes()|, KernelPdes(), Stock(d), Has(d), hi, Pdes(0, hi), true)
      ensures n >= hi + (hi + 1023) / 1024 && |free| == n - hi - (hi + 1023) / 1024
    {
      UserPdes(hi);
      hide KernelPdes, Paid, Pdes, Has;
      PaidExactly(n, KernelPdes(), |free|, Has(d), hi, Pdes(0, hi), true);
    }

    lemma Untouched(d: nat)
      requires Working(d)
      ensures SameSpace(mem, mem, d) && Grew(mem, owner, mem, owner, d, {})
    {
    }
  }

  lemma CopyUnpaid(n: nat, s: nat, h: set<nat>, hi: nat, i: nat)
    requires i <= hi <= KVPN && Paid(n + |KernelPdes()|, KernelPdes(), s, h, i, Pdes(0, hi), false)
    ensures n < hi + (hi + 1023) / 1024
  {
    hide KernelPdes, Paid, Pdes;
    UserPdes(hi);
    PaidLess(n + |KernelPdes()|, KernelPdes(), s, h, i, Pdes(0, hi), hi, Pdes(0, hi));
    UnpaidMeans(n, KernelPdes(), s, h, hi, Pdes(0, hi));
  }

  /** The directory entries that the rows of kmap below k need. */
  ghost function RowPdes(data: nat, k: nat): set<nat> {
    if k == 0 then {} else RowPdes(data, k - 1) + Pdes(KmapStart(data, k - 1), KmapEnd(data, k))
  }

  lemma AllRows(data: nat)
    requires KVPN + 0x100 < data < KVPN + NPAGES
    ensures RowPdes(data, 4) == KernelPdes()
  {
    hide Pdes;
    PdesJoin(KVPN, KVPN + 0x100, data);
    PdesJoin(KVPN, data, KVPN + NPAGES);
    assert RowPdes(data, 1) == Pdes(KVPN, KVPN + 0x100);
    assert RowPdes(data, 2) == Pdes(KVPN, data);
    assert RowPdes(data, 3) == Pdes(KVPN, KVPN + NPAGES);
  }

  lemma {:induction false} RowsBelow(data: nat, k: nat, j: nat)
    requires k <= j
    ensures RowPdes(data, k) <= RowPdes(data, j)
  {
    hide Pdes, KmapStart, KmapEnd;
    if k < j {
      RowsBelow(data, k, j - 1);
    }
  }

  lemma NoKernel(n: nat, s: nat, h: set<nat>)
    requires Paid(n, {}, s, h, 1, KernelPdes(), false)
    ensures n < 65
  {
    hide KernelPdes;
    KernelPdesSize();
    assert {} + KernelPdes() == KernelPdes();
  }

  lemma PaidRow(n: nat, s1: nat, h1: set<nat>, s2: nat, h2: set<nat>, data: nat, k: nat, ok: bool)
    requires KVPN + 0x100 < data < KVPN + NPAGES && k < 4
    requires Paid(n, {}, s1, h1, 1, RowPdes(data, k), true)
    requires Paid(s1, h1, s2, h2, 0, Pdes(KmapStart(data, k), KmapEnd(data, k + 1)), ok)
    ensures ok ==> Paid(n, {}, s2, h2, 1, RowPdes(data, k + 1), true)
    ensures !ok ==> n < 65
  {
    hide Pdes, KmapStart, KmapEnd, KernelPdes, Paid;
    PaidMore(n, {}, s1, h1, 1, RowPdes(data, k), s2, h2, 0, Pdes(KmapStart(data, k), KmapEnd(data, k + 1)), ok);
    if !ok {
      RowsBelow(data, k + 1, 4);
      AllRows(data);
      PaidLess(n, {}, s2, h2, 1, RowPdes(data, k + 1), 1, KernelPdes());
      NoKernel(n, s2, h2);
    }
  }

  lemma MappedOne(m0: seq<Page>, m1: seq<Page>, m2: seq<Page>, d: nat, v: nat, pfn: Pfn, perm: Flags)
    requires SameSpace(m0, m1, d) && d < |m2| && v < NVPN
    requires forall u :: 0 <= u < NVPN ==> Lookup(m2, d, u) == if u == v then Entry(pfn, WithP(perm)) else Lookup(m1, d, u)
    ensures Mapped(m0, m2, d, v, v + 1, pfn, perm)
  {
    hide Lookup;
  }

  lemma MappedMore(m0: seq<Page>, m1: seq<Page>, m2: seq<Page>, d: nat, first: nat, v: nat, pfn: nat, perm: Flags)
    requires Mapped(m0, m1, d, first, v, pfn, perm) && pfn + (v - first) < 0x100000
    requires Mapped(m1, m2, d, v, v + 1, pfn + (v - first), perm)
    ensures Mapped(m0, m2, d, first, v + 1, pfn, perm)
  {
    hide Lookup;
    var m := v + 1;
    forall u: nat | u < NVPN
      ensures MappedAt(m0, m2, d, first, m, pfn, perm, u)
    {
      assert MappedAt(m0, m1, d, first, v, pfn, perm, u);
      assert MappedAt(m1, m2, d, v, m, pfn + (v - first), perm, u);
    }
  }

  lemma MappedStill(m0: seq<Page>, m1: seq<Page>, m2: seq<Page>, d: nat, first: nat, v: nat, pfn: nat, perm: Flags)
    requires Mapped(m0, m1, d, first, v, pfn, perm) && SameSpace(m1, m2, d)
    ensures Mapped(m0, m2, d, first, v, pfn, perm)
  {
    hide Lookup;
    forall u: nat | u < NVPN
      ensures MappedAt(m0, m2, d, first, v, pfn, perm, u)
    {
      assert MappedAt(m0, m1, d, first, v, pfn, perm, u);
    }
  }

  lemma RestUnmapped(m1: seq<Page>, o1: Uses, m2: seq<Page>, o2: Uses, d: nat, v: nat, last: nat, pfn: nat, first: nat,
                     perm: Flags, given: set<nat>)
    requires first <= v <= last < NVPN && pfn + (last - first) < 0x100000
    requires Mapped(m1, m2, d, v, v + 1, pfn + (v - first), perm) && d < |m1| && o1.Keys == o2.Keys
    requires StillHeld(o1, o2, pfn + (v - first), pfn + (v - first) + 1)
    requires forall u :: v <= u <= last ==> !Present(Lookup(m1, d, u)) && FrameReady(o1, given, pfn, first, u)
    ensures forall u :: v + 1 <= u <= last ==> !Present(Lookup(m2, d, u)) && FrameReady(o2, given, pfn, first, u)
  {
    hide Lookup;
    forall u | v + 1 <= u <= last
      ensures !Present(Lookup(m2, d, u)) && FrameReady(o2, given, pfn, first, u)
    {
      assert MappedAt(m1, m2, d, v, v + 1, pfn + (v - first), perm, u);
      assert FrameReady(o1, given, pfn, first, u);
    }
  }

  /** The user pages [lo, hi) of d have been unmapped and their frames, and no other pages, freed. */
  ghost predicate Dropped(m0: seq<Page>, o0: Uses, m1: seq<Page>, o1: Uses, d: nat, lo: nat, hi: nat) {
    && d < |m0| && d < |m1| && o0.Keys == o1.Keys
    && (forall u :: 0 <= u < NVPN ==> DroppedAt(m0, m1, d, lo, hi, u))
    && (forall a :: a in o0 ==> o1[a] == if FrameIn(o0[a], d, lo, hi) then Free else o0[a])
  }

  predicate DroppedAt(m0: seq<Page>, m1: seq<Page>, d: nat, lo: nat, hi: nat, u: nat)
    requires d < |m0| && d < |m1| && u < NVPN
  {
    Lookup(m1, d, u) == if lo <= u < hi && Present(Lookup(m0, d, u)) then NONE else Lookup(m0, d, u)
  }

  predicate FrameIn(u: Use, d: nat, lo: nat, hi: nat) {
    u.Frame? && u.d == d && lo <= u.v < hi
  }

  lemma UpOrder(x: nat, y: nat)
    requires x <= y <= KERNBASE
    ensures Up(x) <= Up(y) <= KVPN
  {
  }

  lemma DroppedEmpty(mem: seq<Page>, owner: Uses, d: nat, lo: nat, hi: nat)
    requires Dropped(mem, owner, mem, owner, d, lo, lo) && hi <= lo
    ensures Dropped(mem, owner, mem, owner, d, lo, hi)
  {
    hide Lookup;
    forall u: nat | u < NVPN
      ensures DroppedAt(mem, mem, d, lo, hi, u)
    {
    }
  }

  lemma DroppedMore(m0: seq<Page>, o0: Uses, m1: seq<Page>, o1: Uses, m2: seq<Page>, o2: Uses, d: nat, lo: nat, v: nat)
    requires Dropped(m0, o0, m1, o1, d, lo, v) && Dropped(m1, o1, m2, o2, d, v, v + 1) && lo <= v
    ensures Dropped(m0, o0, m2, o2, d, lo, v + 1)
  {
    hide Lookup;
    var hi := v + 1;
    forall u: nat | u < NVPN
      ensures DroppedAt(m0, m2, d, lo, hi, u)
    {
      assert DroppedAt(m0, m1, d, lo, v, u) && DroppedAt(m1, m2, d, v, hi, u);
    }
    forall a | a in o0
      ensures o2[a] == if FrameIn(o0[a], d, lo, hi) then Free else o0[a]
    {
      assert a in o1;
    }
  }

  /** Part-way through deallocuvm: the pages below a have been dealt with. */
  ghost predicate Dropping(m0: seq<Page>, o0: Uses, m1: seq<Page>, o1: Uses, d: nat, lo: nat, hi: nat, a: nat) {
    && lo <= a && lo <= hi <= KVPN && DirOk(m1, o1, d) && Shrank(m0, o0, m1, o1, d)
    && Dropped(m0, o0, m1, o1, d, lo, if a <= hi then a else hi)
  }

  lemma DroppingNow(m0: seq<Page>, o0: Uses, m1: seq<Page>, o1: Uses, d: nat, lo: nat, hi: nat, a: nat)
    requires Dropping(m0, o0, m1, o1, d, lo, hi, a) && a < hi
    ensures DirOk(m1, o1, d) && a < hi <= KVPN && d < |m1|
  {
  }

  lemma DroppingDone(m0: seq<Page>, o0: Uses, m1: seq<Page>, o1: Uses, d: nat, lo: nat, hi: nat, a: nat)
    requires Dropping(m0, o0, m1, o1, d, lo, hi, a) && a >= hi
    ensures DirOk(m1, o1, d) && Shrank(m0, o0, m1, o1, d) && Dropped(m0, o0, m1, o1, d, lo, hi)
  {
  }

  lemma DroppingMore(m0: seq<Page>, o0: Uses, m1: seq<Page>, o1: Uses, m2: seq<Page>, o2: Uses, d: nat, lo: nat, hi: nat, a: nat)
    requires Dropping(m0, o0, m1, o1, d, lo, hi, a) && a < hi
    requires DirOk(m2, o2, d) && Shrank(m1, o1, m2, o2, d) && Dropped(m1, o1, m2, o2, d, a, a + 1)
    ensures Dropping(m0, o0, m2, o2, d, lo, hi, a + 1)
  {
    hide DirOk, Shrank, Dropped;
    ShrankTrans(m0, o0, m1, o1, m2, o2, d);
    DroppedMore(m0, o0, m1, o1, m2, o2, d, lo, a);
  }

  lemma SkipPage(m0: seq<Page>, o0: Uses, m1: seq<Page>, o1: Uses, d: nat, lo: nat, hi: nat, a: nat)
    requires Dropping(m0, o0, m1, o1, d, lo, hi, a) && a < hi && d < |m1| && !Present(Lookup(m1, d, a))
    ensures Dropping(m0, o0, m1, o1, d, lo, hi, a + 1)
  {
    hide DirOk, Shrank, Dropped;
    SkipAbsent(m0, o0, m1, o1, d, lo, a, a + 1);
  }

  /** Without a page table none of the pages up to last, the end of its range, is mapped. */
  lemma SkipTable(m0: seq<Page>, o0: Uses, m1: seq<Page>, o1: Uses, d: nat, lo: nat, hi: nat, a: nat, last: nat)
    requires Dropping(m0, o0, m1, o1, d, lo, hi, a) && a < hi && d < |m1| && !Present(m1[d].w[Pdx(a)])
    requires last == (Pdx(a) + 1) * NPTE - 1
    ensures a <= last && Dropping(m0, o0, m1, o1, d, lo, hi, last + 1)
  {
    hide DirOk, Shrank, Dropped;
    SkipAbsent(m0, o0, m1, o1, d, lo, a, if last + 1 <= hi then last + 1 else hi);
  }

  /** Pages that are not mapped need not be looked at. */
  lemma SkipAbsent(m0: seq<Page>, o0: Uses, m1: seq<Page>, o1: Uses, d: nat, lo: nat, v: nat, to: nat)
    requires Dropped(m0, o0, m1, o1, d, lo, v) && DirOk(m1, o1, d) && lo <= v <= to <= KVPN
    requires forall u :: v <= u < to ==> !Present(Lookup(m1, d, u))
    ensures Dropped(m0, o0, m1, o1, d, lo, to)
  {
    hide Lookup;
    forall u: nat | u < NVPN
      ensures DroppedAt(m0, m1, d, lo, to, u)
    {
      assert DroppedAt(m0, m1, d, lo, v, u);
    }
    forall a | a in o0
      ensures o1[a] == if FrameIn(o0[a], d, lo, to) then Free else o0[a]
    {
      assert a in o1 && InPlace(m1, d, a, o1[a]);
    }
  }

  lemma UnmapShrank(mem: seq<Page>, owner: Uses, d: nat, v: nat, f: nat, junk: Page)
    requires DirOk(mem, owner, d) && v < KVPN && Present(Lookup(mem, d, v)) && f == Lookup(mem, d, v).pfn
    ensures f < |mem| && mem[f := junk][d] == mem[d] && mem[d].w[Pdx(v)].pfn < |mem|
    ensures var mem', owner' := Stored(mem[f := junk], d, v, NONE), owner[f := Free];
      Shrank(mem, owner, mem', owner', d) && Dropped(mem, owner, mem', owner', d, v, v + 1)
  {
    FrameOf(mem, owner, d, v);
    TableOf(mem, owner, d, Pdx(v));
    UnmapKeeps(mem, owner, d, v, f, junk);
    OnlyFrame(mem, owner, d, v);
    var mem', owner' := Stored(mem[f := junk], d, v, NONE), owner[f := Free];
    var hi := v + 1;
    hide Lookup;
    forall u: nat | u < NVPN
      ensures DroppedAt(mem, mem', d, v, hi, u)
    {
    }
  }

  lemma HeadInRange(mem: seq<Page>, owner: Uses, free: seq<nat>, freelist: nat)
    requires ListOk(mem, owner, free, freelist)
    ensures freelist < NPAGES
  {
    if free != [] {
      assert LinkOk(mem, owner, free, 0);
    }
  }

  predicate TableBelow(u: Use, d: nat, i: nat) {
    u.Table? && u.d == d && u.i < i
  }

  lemma OnlyTable(mem: seq<Page>, owner: Uses, d: nat, i: nat)
    requires DirOk(mem, owner, d) && i < NPTE
    ensures forall a :: a in owner && owner[a] == Table(d, i) ==> Present(mem[d].w[i]) && a == mem[d].w[i].pfn
  {
    forall a | a in owner && owner[a] == Table(d, i)
      ensures Present(mem[d].w[i]) && a == mem[d].w[i].pfn
    {
      assert InPlace(mem, d, a, owner[a]);
    }
  }

  /** freevm's end: frames went with deallocuvm, tables with the loop, the directory last. */
  lemma AllFreed(m0: seq<Page>, o0: Uses, m1: seq<Page>, o1: Uses, m2: seq<Page>, o2: Uses, d: nat)
    requires DirOk(m0, o0, d) && Shrank(m0, o0, m1, o1, d) && Dropped(m0, o0, m1, o1, d, Up(0), Up(KERNBASE))
    requires PagesOk(m2, o2) && o2.Keys == o1.Keys
    requires forall a :: a in o1 ==> o2[a] == if a == d || (o1[a].Table? && o1[a].d == d) then Free else o1[a]
    requires forall a :: a in o1 && o2[a] != Free && a < |m1| ==> m2[a] == m1[a]
    ensures Shrank(m0, o0, m2, o2, d)
    ensures forall a :: a in o0 ==> o2[a] == if Of(o0[a], a, d) then Free else o0[a]
  {
    forall a | a in o0
      ensures o2[a] == if Of(o0[a], a, d) then Free else o0[a]
      ensures ShrankAt(m0, o0, m2, o2, d, a)
    {
      assert a in o1 && ShrankAt(m0, o0, m1, o1, d, a) && InPlace(m0, d, a, o0[a]);
    }
  }

  lemma PageBytes(v: nat)
    ensures PageOf(v * PGSIZE) == v && PageOf(v * PGSIZE + PGSIZE - 1) == v
  {
  }

  /** A page just taken and filled. */
  lemma HeldPage(mem: seq<Page>, owner: Uses, d: nat, f: nat, c: Page, free: seq<nat>, freelist: nat, v: nat)
    requires DirOk(mem, owner, d) && f in owner && owner[f] == Free && ListOk(mem, owner[f := Held], free, freelist)
    requires v < KVPN && !Present(Lookup(mem, d, v))
    ensures f < |mem| && DirOk(mem[f := c], owner[f := Held], d) && ListOk(mem[f := c], owner[f := Held], free, freelist)
    ensures SameSpace(mem, mem[f := c], d) && DataPages(owner[f := Held], {f})
    ensures !Present(Lookup(mem[f := c], d, v)) && f < 0x100000
    ensures FrameReady(owner[f := Held], {f}, f, v, v)
  {
    HeldDirOk(mem, owner, d, f);
    FrameContents(mem, owner[f := Held], d, f, c);
    ListFrame(mem, owner[f := Held], mem[f := c], owner[f := Held], free, freelist);
  }

  lemma FreshMapped(m0: seq<Page>, o0: Uses, m1: seq<Page>, m2: seq<Page>, o2: Uses, d: nat, v: nat, f: nat, c: Page, perm: Flags)
    requires f in o0 && o0[f] == Free && f < |m0| && m1 == m0[f := c] && f < 0x100000 && v < KVPN
    requires Grew(m1, o0[f := Held], m2, o2, d, {f}) && DirOk(m2, o2, d)
    requires Mapped(m1, m2, d, v, v + 1, f, perm) && SameSpace(m0, m1, d)
    ensures Grew(m0, o0, m2, o2, d, {}) && f in o2 && o2[f] == Frame(d, v) && f < |m2| && m2[f] == c
    ensures Mapped(m0, m2, d, v, v + 1, f, perm)
  {
    var hi := v + 1;
    assert MappedAt(m1, m2, d, v, hi, f, perm, v);
    assert PteOk(m2, o2, d, v);
    forall u: nat | u < NVPN
      ensures MappedAt(m0, m2, d, v, hi, f, perm, u)
    {
      assert MappedAt(m1, m2, d, v, hi, f, perm, u);
    }
    assert PagesOk(m0, o0) by {
      forall a | a in o0
        ensures 0 < a < NPAGES
      {
        assert a in o0[f := Held];
      }
    }
    forall a | a in o0
      ensures GrewAt(m0, o0, m2, o2, d, {}, a)
    {
      assert GrewAt(m1, o0[f := Held], m2, o2, d, {f}, a);
    }
    assert GrewAt(m1, o0[f := Held], m2, o2, d, {f}, f);
  }

  lemma FreshUnmapped(m0: seq<Page>, o0: Uses, m1: seq<Page>, m2: seq<Page>, o2: Uses, d: nat, v: nat, f: nat, c: Page, perm: Flags)
    requires f in o0 && o0[f] == Free && f < |m0| && m1 == m0[f := c] && f < 0x100000 && v < KVPN
    requires Grew(m1, o0[f := Held], m2, o2, d, {f}) && f in o2 && o2[f] == Held
    requires Mapped(m1, m2, d, v, v, f, perm) && SameSpace(m0, m1, d)
    ensures Grew(m0, o0, m2, o2[f := Free], d, {}) && SameSpace(m0, m2, d)
  {
    forall u: nat | u < NVPN
      ensures Lookup(m2, d, u) == Lookup(m0, d, u)
    {
      assert MappedAt(m1, m2, d, v, v, f, perm, u);
    }
    var o := o2[f := Free];
    assert PagesOk(m0, o0) by {
      forall a | a in o0
        ensures 0 < a < NPAGES
      {
        assert a in o0[f := Held];
      }
    }
    forall a | a in o0
      ensures GrewAt(m0, o0, m2, o, d, {}, a)
    {
      assert GrewAt(m1, o0[f := Held], m2, o2, d, {f}, a);
    }
  }

  /** Held pages outside [lo, hi) are still held. */
  lemma HeldKept(m0: seq<Page>, o0: Uses, m1: seq<Page>, o1: Uses, d: nat, pfn: nat)
    requires Grew(m0, o0, m1, o1, d, {})
    ensures StillHeld(o0, o1, pfn, pfn)
  {
    assert forall a :: a in o0 && o0[a] == Held ==> GrewAt(m0, o0, m1, o1, d, {}, a);
  }

  lemma HeldEntered(o0: Uses, o1: Uses, d: nat, v: nat, e: Entry)
    requires StillHeld(o0, o1, e.pfn, e.pfn) && (v < KVPN ==> e.pfn in o1)
    ensures StillHeld(o0, Entered(o1, d, v, e), e.pfn, e.pfn + 1)
  {
  }

  ghost predicate StillHeld(o0: Uses, o1: Uses, lo: nat, hi: nat) {
    o0.Keys == o1.Keys && forall a :: a in o0 && o0[a] == Held && !(lo <= a < hi) ==> o1[a] == Held
  }

  lemma HeldMore(o0: Uses, o1: Uses, o2: Uses, lo: nat, mid: nat, hi: nat)
    requires StillHeld(o0, o1, lo, mid) && StillHeld(o1, o2, mid, hi) && lo <= mid <= hi
    ensures StillHeld(o0, o2, lo, hi)
  {
  }

  /** Part-way through mappages: pages [first, a) are mapped, pages a to last are not. */
  ghost predicate Mapping(m0: seq<Page>, o0: Uses, mem: seq<Page>, owner: Uses, d: nat, first: nat, last: nat, pfn: nat,
                          perm: Flags, given: set<nat>, a: nat)
  {
    && first <= a <= last + 1 <= NVPN && pfn + (last - first) < 0x100000
    && DirOk(mem, owner, d) && Grew(m0, o0, mem, owner, d, given) && DataPages(owner, given)
    && Mapped(m0, mem, d, first, a, pfn, perm) && StillHeld(o0, owner, pfn, pfn + (a - first))
    && forall u :: a <= u <= last ==> !Present(Lookup(mem, d, u)) && FrameReady(owner, given, pfn, first, u)
  }

  lemma MappingNow(m0: seq<Page>, o0: Uses, mem: seq<Page>, owner: Uses, d: nat, first: nat, last: nat, pfn: nat,
                   perm: Flags, given: set<nat>, a: nat)
    requires Mapping(m0, o0, mem, owner, d, first, last, pfn, perm, given, a) && a <= last
    ensures DirOk(mem, owner, d) && DataPages(owner, given) && a < NVPN && d < |mem| && !Present(Lookup(mem, d, a))
    ensures pfn + (a - first) < 0x100000
    ensures a < KVPN ==> var x := pfn + (a - first); x in given && x in owner && owner[x] == Held
  {
    assert FrameReady(owner, given, pfn, first, a);
  }

  lemma MappingEnds(m0: seq<Page>, o0: Uses, mem: seq<Page>, owner: Uses, d: nat, first: nat, last: nat, pfn: nat,
                    perm: Flags, given: set<nat>, a: nat)
    requires Mapping(m0, o0, mem, owner, d, first, last, pfn, perm, given, a)
    ensures DirOk(mem, owner, d) && Grew(m0, o0, mem, owner, d, given) && DataPages(owner, given)
    ensures Mapped(m0, mem, d, first, a, pfn, perm) && StillHeld(o0, owner, pfn, pfn + (a - first))
  {
  }

  lemma MappingMore(m0: seq<Page>, o0: Uses, m1: seq<Page>, o1: Uses, mem: seq<Page>, owner: Uses, d: nat, first: nat,
                    last: nat, pfn: nat, perm: Flags, given: set<nat>, a: nat)
    requires Mapping(m0, o0, m1, o1, d, first, last, pfn, perm, given, a) && a <= last
    requires DirOk(mem, owner, d) && Grew(m1, o1, mem, owner, d, given) && DataPages(owner, given)
    requires Mapped(m1, mem, d, a, a + 1, pfn + (a - first), perm)
    requires StillHeld(o1, owner, pfn + (a - first), pfn + (a - first) + 1)
    ensures Mapping(m0, o0, mem, owner, d, first, last, pfn, perm, given, a + 1)
  {
    assert d < |m1| && o1.Keys == owner.Keys;
    hide DirOk, Grew, DataPages, Mapped, StillHeld, FrameReady, Lookup;
    GrewTrans(m0, o0, m1, o1, mem, owner, d, given);
    MappedMore(m0, m1, mem, d, first, a, pfn, perm);
    HeldMore(o0, o1, owner, pfn, pfn + (a - first), pfn + (a - first) + 1);
    RestUnmapped(m1, o1, mem, owner, d, a, last, pfn, first, perm, given);
  }

  lemma MappingFails(m0: seq<Page>, o0: Uses, m1: seq<Page>, o1: Uses, mem: seq<Page>, owner: Uses, d: nat, first: nat,
                     last: nat, pfn: nat, perm: Flags, given: set<nat>, a: nat)
    requires Mapping(m0, o0, m1, o1, d, first, last, pfn, perm, given, a) && a <= last
    requires DirOk(mem, owner, d) && Grew(m1, o1, mem, owner, d, given) && SameSpace(m1, mem, d) && DataPages(owner, given)
    requires StillHeld(o1, owner, pfn + (a - first), pfn + (a - first))
    ensures Mapping(m0, o0, mem, owner, d, first, last, pfn, perm, given, a)
  {
    assert d < |m1| && o1.Keys == owner.Keys;
    hide DirOk, Grew, DataPages, Mapped, StillHeld, FrameReady, Lookup, SameSpace;
    GrewTrans(m0, o0, m1, o1, mem, owner, d, given);
    MappedStill(m0, m1, mem, d, first, a, pfn, perm);
    HeldMore(o0, o1, owner, pfn, pfn + (a - first), pfn + (a - first));
    forall u | a <= u <= last
      ensures !Present(Lookup(mem, d, u)) && FrameReady(owner, given, pfn, first, u)
    {
      StillReady(m1, o1, mem, owner, d, given, pfn, first, u, a);
    }
  }

  lemma StillReady(m1: seq<Page>, o1: Uses, mem: seq<Page>, owner: Uses, d: nat, given: set<nat>, pfn: nat, first: nat, u: nat,
                   a: nat)
    requires first <= a <= u < NVPN && SameSpace(m1, mem, d) && !Present(Lookup(m1, d, u))
    requires FrameReady(o1, given, pfn, first, u) && StillHeld(o1, owner, pfn + (a - first), pfn + (a - first))
    ensures !Present(Lookup(mem, d, u)) && FrameReady(owner, given, pfn, first, u)
  {
  }

  /** A held page given back to the free list does not concern directory d. */
  lemma GivenBack(mem: seq<Page>, owner: Uses, d: nat, f: nat, junk: Page)
    requires DirOk(mem, owner, d) && f in owner && owner[f] == Held
    ensures f < |mem| && DirOk(mem[f := junk], owner[f := Free], d) && SameSpace(mem, mem[f := junk], d)
  {
    FrameContents(mem, owner, d, f, junk);
    var m, o := mem[f := junk], owner[f := Free];
    hide Lookup;
    forall i: nat | i < NPTE
      ensures PdeOk(m, o, d, i)
    {
      assert PdeOk(m, owner, d, i);
    }
    forall v: nat | v < NVPN
      ensures PteOk(m, o, d, v)
    {
      assert PteOk(m, owner, d, v);
    }
    forall a | a in o
      ensures InPlace(m, d, a, o[a])
    {
      assert InPlace(m, d, a, owner[a]);
    }
  }

  // ----- allocuvm

  predicate ZeroedAt(m1: seq<Page>, d: nat, u: nat)
    requires d < |m1| && u < NVPN
  {
    var e := Lookup(m1, d, u);
    e.flags == PTE_P + PTE_W + PTE_U && e.pfn < |m1| && m1[e.pfn] == ZeroPage()
  }

  predicate AllocedAt(m0: seq<Page>, m1: seq<Page>, d: nat, lo: nat, hi: nat, u: nat)
    requires d < |m0| && d < |m1| && u < NVPN
  {
    if lo <= u < hi then ZeroedAt(m1, d, u) else Lookup(m1, d, u) == Lookup(m0, d, u)
  }

  /** Pages [lo, hi) are mapped to zeroed frames, the other pages as before. */
  ghost predicate Alloced(m0: seq<Page>, m1: seq<Page>, d: nat, lo: nat, hi: nat) {
    d < |m0| && d < |m1| && forall u :: 0 <= u < NVPN ==> AllocedAt(m0, m1, d, lo, hi, u)
  }

  ghost predicate TablesOnly(o0: Uses, o1: Uses, d: nat) {
    o0.Keys == o1.Keys && forall a :: a in o0 ==> o1[a] == o0[a] || (o0[a] == Free && o1[a].Table? && o1[a].d == d)
  }

  predicate SamePresentAt(m0: seq<Page>, m1: seq<Page>, d: nat, u: nat)
    requires d < |m0| && d < |m1| && u < NVPN
  {
    Lookup(m1, d, u) == Lookup(m0, d, u) || (!Present(Lookup(m1, d, u)) && !Present(Lookup(m0, d, u)))
  }

  ghost predicate SamePresent(m0: seq<Page>, m1: seq<Page>, d: nat) {
    d < |m0| && d < |m1| && forall u :: 0 <= u < NVPN ==> SamePresentAt(m0, m1, d, u)
  }

  ghost predicate Allocating(m0: seq<Page>, o0: Uses, m1: seq<Page>, o1: Uses, d: nat, lo: nat, hi: nat, a: nat) {
    && lo <= a <= hi <= KVPN && DirOk(m0, o0, d) && DirOk(m1, o1, d) && Grew(m0, o0, m1, o1, d, {})
    && Alloced(m0, m1, d, lo, a)
    && forall u :: lo <= u < hi ==> !Present(Lookup(m0, d, u))
  }

  lemma AllocatingNow(m0: seq<Page>, o0: Uses, m1: seq<Page>, o1: Uses, d: nat, lo: nat, hi: nat, a: nat)
    requires Allocating(m0, o0, m1, o1, d, lo, hi, a) && a < hi
    ensures DirOk(m1, o1, d) && a < KVPN && !Present(Lookup(m1, d, a))
  {
    assert AllocedAt(m0, m1, d, lo, a, a);
  }

  lemma AllocatingDone(m0: seq<Page>, o0: Uses, m1: seq<Page>, o1: Uses, d: nat, lo: nat, hi: nat)
    requires Allocating(m0, o0, m1, o1, d, lo, hi, hi)
    ensures DirOk(m1, o1, d) && Grew(m0, o0, m1, o1, d, {}) && Alloced(m0, m1, d, lo, hi)
  {
  }

  /** A frame of d keeps its contents while d grows. */
  lemma FrameStays(m1: seq<Page>, o1: Uses, m2: seq<Page>, o2: Uses, d: nat, u: nat)
    requires DirOk(m1, o1, d) && Grew(m1, o1, m2, o2, d, {}) && u < KVPN && Present(Lookup(m1, d, u))
    ensures var f := Lookup(m1, d, u).pfn; f < |m1| == |m2| && m2[f] == m1[f]
  {
    FrameOf(m1, o1, d, u);
    assert GrewAt(m1, o1, m2, o2, d, {}, Lookup(m1, d, u).pfn);
  }

  lemma AllocatingMore(m0: seq<Page>, o0: Uses, m1: seq<Page>, o1: Uses, m2: seq<Page>, o2: Uses, d: nat, lo: nat, hi: nat,
                       a: nat, f: nat)
    requires Allocating(m0, o0, m1, o1, d, lo, hi, a) && a < hi && DirOk(m2, o2, d)
    requires Grew(m1, o1, m2, o2, d, {}) && f < 0x100000 && f < |m2| && m2[f] == ZeroPage()
    requires Mapped(m1, m2, d, a, a + 1, f, PTE_W + PTE_U)
    ensures Allocating(m0, o0, m2, o2, d, lo, hi, a + 1)
  {
    GrewTrans(m0, o0, m1, o1, m2, o2, d, {});
    var next := a + 1;
    forall u: nat | u < NVPN
      ensures AllocedAt(m0, m2, d, lo, next, u)
    {
      assert AllocedAt(m0, m1, d, lo, a, u) && MappedAt(m1, m2, d, a, next, f, PTE_W + PTE_U, u);
      if lo <= u < a {
        hide Lookup, DirOk, Grew;
        FrameStays(m1, o1, m2, o2, d, u);
      }
    }
  }

  lemma GivePageFailed(m0: seq<Page>, o0: Uses, m1: seq<Page>, o1: Uses, m2: seq<Page>, o2: Uses, d: nat, lo: nat, hi: nat,
                       a: nat, f: nat)
    requires Allocating(m0, o0, m1, o1, d, lo, hi, a) && DirOk(m2, o2, d)
    requires f == 0 ==> m2 == m1 && o2 == o1
    requires f != 0 ==> f in o2 && o2[f] == Held && Grew(m1, o1, m2, o2[f := Free], d, {}) && SameSpace(m1, m2, d)
    ensures f == 0 ==> Allocating(m0, o0, m2, o2, d, lo, hi, a)
    ensures f != 0 ==> Allocating(m0, o0, m2, o2[f := Free], d, lo, hi, a)
  {
    if f == 0 {
      return;
    }
    var o := o2[f := Free];
    assert |m2| > f;
    GivenBack(m2, o2, d, f, m2[f]);
    assert m2[f := m2[f]] == m2;
    GrewTrans(m0, o0, m1, o1, m2, o, d, {});
    forall u: nat | u < NVPN
      ensures AllocedAt(m0, m2, d, lo, a, u)
    {
      assert AllocedAt(m0, m1, d, lo, a, u);
      if lo <= u < a {
        FrameStays(m1, o1, m2, o, d, u);
      }
    }
  }

  lemma DroppedHeld(m2: seq<Page>, o2: Uses, m3: seq<Page>, o3: Uses, d: nat, lo: nat, hi: nat, f: nat)
    requires Dropped(m2, o2, m3, o3, d, lo, hi) && f in o2 && o2[f] == Held
    ensures f in o3 && o3[f] == Held
  {
  }

  /** Giving back page f around a deallocuvm that did not concern it. */
  lemma DroppedAround(m2: seq<Page>, o2: Uses, m3: seq<Page>, o3: Uses, d: nat, lo: nat, hi: nat, f: nat, junk: Page)
    requires Dropped(m2, o2, m3, o3, d, lo, hi) && Shrank(m2, o2, m3, o3, d) && f in o2 && o2[f] == Held && f < |m3|
    requires DirOk(m3, o3, d)
    ensures Dropped(m2, o2[f := Free], m3[f := junk], o3[f := Free], d, lo, hi)
    ensures Shrank(m2, o2[f := Free], m3[f := junk], o3[f := Free], d)
  {
    GivenBack(m3, o3, d, f, junk);
    var m, o, p := m3[f := junk], o3[f := Free], o2[f := Free];
    forall u: nat | u < NVPN
      ensures DroppedAt(m2, m, d, lo, hi, u)
    {
      assert DroppedAt(m2, m3, d, lo, hi, u);
    }
    forall a | a in p
      ensures ShrankAt(m2, p, m, o, d, a)
    {
      assert a in o2 && ShrankAt(m2, o2, m3, o3, d, a);
    }
    assert PagesOk(m2, p) && PagesOk(m, o) by {
      forall a | a in p
        ensures 0 < a < NPAGES
      {
        assert a in o2;
      }
    }
  }

  /** allocuvm's failure path: what was mapped is unmapped again. */
  lemma AllocUndonePresent(m0: seq<Page>, o0: Uses, m1: seq<Page>, o1: Uses, m2: seq<Page>, o2: Uses, d: nat, lo: nat, hi: nat, a: nat)
    requires Allocating(m0, o0, m1, o1, d, lo, hi, a)
    requires Shrank(m1, o1, m2, o2, d) && Dropped(m1, o1, m2, o2, d, lo, hi)
    ensures SamePresent(m0, m2, d)
  {
    hide Grew, Shrank, DirOk, GrewAt;
    forall u: nat | u < NVPN
      ensures SamePresentAt(m0, m2, d, u)
    {
      assert AllocedAt(m0, m1, d, lo, a, u) && DroppedAt(m1, m2, d, lo, hi, u);
    }
  }

  lemma AllocUndone(m0: seq<Page>, o0: Uses, m1: seq<Page>, o1: Uses, m2: seq<Page>, o2: Uses, d: nat, lo: nat, hi: nat, a: nat)
    requires Allocating(m0, o0, m1, o1, d, lo, hi, a)
    requires Shrank(m1, o1, m2, o2, d) && Dropped(m1, o1, m2, o2, d, lo, hi)
    ensures Grew(m0, o0, m2, o2, d, {}) && TablesOnly(o0, o2, d) && SamePresent(m0, m2, d)
  {
    AllocUndonePresent(m0, o0, m1, o1, m2, o2, d, lo, hi, a);
    assert PagesOk(m0, o0) && PagesOk(m2, o2) && o0.Keys == o2.Keys;
    hide Allocating, Shrank, Dropped, GrewAt, PagesOk;
    forall x | x in o0
      ensures o2[x] == o0[x] || (o0[x] == Free && o2[x].Table? && o2[x].d == d)
      ensures GrewAt(m0, o0, m2, o2, d, {}, x)
    {
      AllocUndoneAt(m0, o0, m1, o1, m2, o2, d, lo, hi, a, x);
    }
  }

  lemma AllocUndoneAt(m0: seq<Page>, o0: Uses, m1: seq<Page>, o1: Uses, m2: seq<Page>, o2: Uses, d: nat, lo: nat, hi: nat,
                      a: nat, x: nat)
    requires Allocating(m0, o0, m1, o1, d, lo, hi, a) && x in o0
    requires Shrank(m1, o1, m2, o2, d) && Dropped(m1, o1, m2, o2, d, lo, hi)
    ensures x in o2 && x < |m0| == |m2|
    ensures o2[x] == o0[x] || (o0[x] == Free && o2[x].Table? && o2[x].d == d)
    ensures GrewAt(m0, o0, m2, o2, d, {}, x)
  {
    assert x in o1 && GrewAt(m0, o0, m1, o1, d, {}, x) && ShrankAt(m1, o1, m2, o2, d, x) && InPlace(m1, d, x, o1[x]);
    if o1[x].Frame? && o1[x].d == d {
      var v := o1[x].v;
      assert AllocedAt(m0, m1, d, lo, a, v) && PteOk(m0, o0, d, v);
    }
  }

  lemma UpStrict(x: nat, y: nat)
    requires Up(x) * PGSIZE < y
    ensures x < y
  {
  }

  // ----- setupkvm

  /** No page in use, before and after, changes its contents or its use. */
  predicate UsedSameAt(m0: seq<Page>, o0: Uses, m1: seq<Page>, o1: Uses, a: nat)
    requires a in o0 && a in o1 && a < |m0| == |m1|
  {
    o0[a] != Free ==> o1[a] == o0[a] && m1[a] == m0[a]
  }

  ghost predicate UsedSame(m0: seq<Page>, o0: Uses, m1: seq<Page>, o1: Uses) {
    && PagesOk(m0, o0) && PagesOk(m1, o1) && o0.Keys == o1.Keys
    && forall a :: a in o0 ==> UsedSameAt(m0, o0, m1, o1, a)
  }

  lemma UsedSameNow(mem: seq<Page>, owner: Uses)
    requires PagesOk(mem, owner)
    ensures UsedSame(mem, owner, mem, owner)
  {
  }

  /** A row of kmap: virtual address, physical range, permissions. */
  datatype Kmap = Kmap(virt: nat, start: nat, end: nat, perm: Flags)

  function KMAP(data: nat): (r: seq<Kmap>)
    requires KVPN + 0x100 < data < KVPN + NPAGES
    ensures |r| == 4
  {
    [Kmap(KERNBASE, 0, 0x100000, PTE_W),
     Kmap(KERNLINK, KERNLINK - KERNBASE, data * PGSIZE - KERNBASE, 0),
     Kmap(data * PGSIZE, data * PGSIZE - KERNBASE, PHYSTOP, PTE_W),
     Kmap(DEVSPACE, DEVSPACE, 0, PTE_W)]
  }

  /** The pages of row k: from KmapStart(k) up to KmapEnd(k + 1). */
  function KmapStart(data: nat, k: nat): nat {
    if k == 0 then KVPN else if k == 1 then KVPN + 0x100 else if k == 2 then data else DEVVPN
  }

  function KmapEnd(data: nat, k: nat): nat {
    if k == 0 then 0 else if k == 1 then KVPN + 0x100 else if k == 2 then data else if k == 3 then KVPN + NPAGES else NVPN
  }

  function RowSize(data: nat, k: nat): nat
    requires KVPN + 0x100 < data < KVPN + NPAGES && k < 4
  {
    var row := KMAP(data)[k];
    (row.end - row.start) % 0x100000000
  }

  lemma RowPages(data: nat, k: nat)
    requires KVPN + 0x100 < data < KVPN + NPAGES && k < 4
    ensures var row := KMAP(data)[k];
      && RowSize(data, k) == (row.end - row.start) % 0x100000000
      && 0 < RowSize(data, k) && row.virt + RowSize(data, k) <= 0x100000000
      && PageOf(row.virt) == KmapStart(data, k) && PageOf(row.virt + RowSize(data, k) - 1) == KmapEnd(data, k + 1) - 1
      && KVPN <= KmapStart(data, k) < KmapEnd(data, k + 1) <= NVPN && KmapEnd(data, k) <= KmapStart(data, k)
      && row.start / PGSIZE + (KmapEnd(data, k + 1) - 1 - KmapStart(data, k)) < 0x100000
  {
  }

  lemma RowEntries(data: nat, k: nat, u: nat)
    requires KVPN + 0x100 < data < KVPN + NPAGES && k < 4 && u < NVPN
    ensures KmapEnd(data, k) <= u < KmapStart(data, k) ==> KmapAt(data, u) == NONE
    ensures KmapStart(data, k) <= u < KmapEnd(data, k + 1) ==>
      && KMAP(data)[k].start / PGSIZE + (u - KmapStart(data, k)) < 0x100000
      && KmapAt(data, u) == Entry(KMAP(data)[k].start / PGSIZE + (u - KmapStart(data, k)), WithP(KMAP(data)[k].perm))
  {
  }

  /** A new directory is being built. */
  ghost predicate Started(m0: seq<Page>, o0: Uses, mem: seq<Page>, owner: Uses, d: nat) {
    && SpacesOk(m0, o0) && d in o0 && o0[d] == Free && (forall a :: a in o0 ==> !Of(o0[a], a, d))
    && DirOk(mem, owner, d) && Grew(m0, o0, mem, owner, d, {})
  }

  predicate KmapBelow(mem: seq<Page>, d: nat, data: nat, k: nat, v: nat)
    requires d < |mem| && v < NVPN && KVPN + 0x100 < data < KVPN + NPAGES
  {
    Lookup(mem, d, v) == if v < KmapEnd(data, k) then KmapAt(data, v) else NONE
  }

  /** Rows below k of kmap have been mapped. */
  ghost predicate Kmapping(m0: seq<Page>, o0: Uses, mem: seq<Page>, owner: Uses, d: nat, data: nat, k: nat) {
    && Started(m0, o0, mem, owner, d) && KVPN + 0x100 < data < KVPN + NPAGES
    && forall v :: 0 <= v < NVPN ==> KmapBelow(mem, d, data, k, v)
  }

  lemma NewDirectory(m0: seq<Page>, o0: Uses, d: nat, free: seq<nat>, freelist: nat, data: nat)
    requires SpacesOk(m0, o0) && d in o0 && o0[d] == Free && ListOk(m0, o0[d := Held], free, freelist)
    requires KVPN + 0x100 < data < KVPN + NPAGES
    ensures d < |m0|
    ensures var m, o := m0[d := ZeroPage()], o0[d := Held][d := Dir];
      ListOk(m, o, free, freelist) && Kmapping(m0, o0, m, o, d, data, 0)
  {
    assert d in o0[d := Held];
    var m, o := m0[d := ZeroPage()], o0[d := Held][d := Dir];
    forall a | a in o0
      ensures !Of(o0[a], a, d)
    {
      assert Housed(o0, o0[a]);
    }
    assert PagesOk(m0, o0) && PagesOk(m, o) by {
      forall a | a in o0
        ensures 0 < a < NPAGES
      {
        assert a in o0[d := Held];
      }
    }
    ListFrame(m0, o0[d := Held], m, o, free, freelist);
    forall i: nat | i < NPTE
      ensures PdeOk(m, o, d, i)
    {
    }
    forall v: nat | v < NVPN
      ensures PteOk(m, o, d, v) && KmapBelow(m, d, data, 0, v)
    {
      assert Lookup(m, d, v) == NONE;
    }
    forall a | a in o
      ensures InPlace(m, d, a, o[a])
    {
      assert a in o0 && !Of(o0[a], a, d);
    }
  }

  lemma SetupStarted(m0: seq<Page>, o0: Uses, mem: seq<Page>, owner: Uses, d: nat)
    requires Started(m0, o0, mem, owner, d)
    ensures DirOk(mem, owner, d)
  {
  }

  lemma RowFree(m0: seq<Page>, o0: Uses, mem: seq<Page>, owner: Uses, d: nat, data: nat, k: nat)
    requires Kmapping(m0, o0, mem, owner, d, data, k) && k < 4
    ensures DirOk(mem, owner, d) && d < |mem| && DataPages(owner, {})
    ensures forall u :: KmapStart(data, k) <= u <= KmapEnd(data, k + 1) - 1 ==>
      && u < NVPN && !Present(Lookup(mem, d, u))
      && FrameReady(owner, {}, KMAP(data)[k].start / PGSIZE, KmapStart(data, k), u)
  {
    RowPages(data, k);
    forall u | KmapStart(data, k) <= u <= KmapEnd(data, k + 1) - 1
      ensures u < NVPN && !Present(Lookup(mem, d, u))
      ensures FrameReady(owner, {}, KMAP(data)[k].start / PGSIZE, KmapStart(data, k), u)
    {
      assert KmapBelow(mem, d, data, k, u);
    }
  }

  lemma RowMapped(m0: seq<Page>, o0: Uses, m1: seq<Page>, o1: Uses, mem: seq<Page>, owner: Uses, d: nat, data: nat, k: nat, m: nat)
    requires Kmapping(m0, o0, m1, o1, d, data, k) && k < 4 && DirOk(mem, owner, d)
    requires Grew(m1, o1, mem, owner, d, {})
    requires Mapped(m1, mem, d, KmapStart(data, k), m, KMAP(data)[k].start / PGSIZE, KMAP(data)[k].perm)
    ensures Started(m0, o0, mem, owner, d)
    ensures m == KmapEnd(data, k + 1) ==> Kmapping(m0, o0, mem, owner, d, data, k + 1)
  {
    GrewTrans(m0, o0, m1, o1, mem, owner, d, {});
    if m == KmapEnd(data, k + 1) {
      RowPages(data, k);
      var next, start, pfn, perm := k + 1, KmapStart(data, k), KMAP(data)[k].start / PGSIZE, KMAP(data)[k].perm;
      hide Lookup, KmapAt, KMAP;
      forall v: nat | v < NVPN
        ensures KmapBelow(mem, d, data, next, v)
      {
        assert KmapBelow(m1, d, data, k, v) && MappedAt(m1, mem, d, start, m, pfn, perm, v);
        RowEntries(data, k, v);
      }
    }
  }

  lemma KmapDone(m0: seq<Page>, o0: Uses, mem: seq<Page>, owner: Uses, d: nat, data: nat)
    requires Kmapping(m0, o0, mem, owner, d, data, 4)
    ensures SpacesOk(mem, owner) && d in o0 && o0[d] == Free && d in owner && owner[d] == Dir && d < |mem|
    ensures Grew(m0, o0, mem, owner, d, {}) && UsedSame(m0, o0, mem, owner)
    ensures forall v :: 0 <= v < NVPN ==> Lookup(mem, d, v) == KmapAt(data, v)
  {
    forall v: nat | v < NVPN
      ensures Lookup(mem, d, v) == KmapAt(data, v)
    {
      assert KmapBelow(mem, d, data, 4, v);
    }
    NewSpaceOk(m0, o0, mem, owner, d);
  }

  lemma NewSpaceOk(m0: seq<Page>, o0: Uses, mem: seq<Page>, owner: Uses, d: nat)
    requires Started(m0, o0, mem, owner, d)
    ensures SpacesOk(mem, owner) && UsedSame(m0, o0, mem, owner)
  {
    GrewKept(m0, o0, mem, owner, d, {});
    SpacesAgain(m0, o0, mem, owner, d, {});
    forall a | a in o0
      ensures UsedSameAt(m0, o0, mem, owner, a)
    {
      assert GrewAt(m0, o0, mem, owner, d, {}, a);
    }
  }

  /** Freeing all of a new address space, finished or not, puts every page's use back and changes none in use. */
  lemma SetupUndone(m0: seq<Page>, o0: Uses, m1: seq<Page>, o1: Uses, mem: seq<Page>, owner: Uses, d: nat)
    requires Started(m0, o0, m1, o1, d) && Shrank(m1, o1, mem, owner, d)
    requires forall a :: a in o1 ==> a in owner && owner[a] == if Of(o1[a], a, d) then Free else o1[a]
    ensures owner == o0 && UsedSame(m0, o0, mem, owner) && SpacesOk(mem, owner)
  {
    FreeUndoesGrowth(m0, o0, m1, o1, owner, d);
    forall a | a in o0
      ensures UsedSameAt(m0, o0, mem, owner, a)
      ensures KeptAt(m0, o0, mem, owner, d, {}, a)
    {
      assert GrewAt(m0, o0, m1, o1, d, {}, a) && ShrankAt(m1, o1, mem, owner, d, a);
    }
    SpacesAgain(m0, o0, mem, owner, d, {});
  }

  // ----- copyuvm

  /** Page v of the child: the parent's flags and bytes below hi, else as setupkvm left it. */
  predicate CopiedAt(m0: seq<Page>, m1: seq<Page>, p: nat, d: nat, data: nat, hi: nat, v: nat)
    requires p < |m0| && d < |m1| && v < NVPN && KVPN + 0x100 < data < KVPN + NPAGES
  {
    var e, c := Lookup(m0, p, v), Lookup(m1, d, v);
    if v < hi then c.flags == e.flags && c.pfn < |m1| && e.pfn < |m0| && m1[c.pfn] == m0[e.pfn]
    else c == KmapAt(data, v)
  }

  ghost predicate CopyOf(m0: seq<Page>, m1: seq<Page>, p: nat, d: nat, data: nat, hi: nat) {
    && p < |m0| && d < |m1| && KVPN + 0x100 < data < KVPN + NPAGES
    && forall v :: 0 <= v < NVPN ==> CopiedAt(m0, m1, p, d, data, hi, v)
  }

  /** Part-way through copyuvm: pages below i have been copied. */
  ghost predicate Copying(m0: seq<Page>, o0: Uses, mem: seq<Page>, owner: Uses, p: nat, d: nat, data: nat, hi: nat, i: nat) {
    && Started(m0, o0, mem, owner, d) && DirOk(m0, o0, p) && i <= hi <= KVPN
    && (forall v :: 0 <= v < hi ==> Present(Lookup(m0, p, v)))
    && CopyOf(m0, mem, p, d, data, i)
  }

  lemma StartCopying(m0: seq<Page>, o0: Uses, mem: seq<Page>, owner: Uses, p: nat, d: nat, data: nat, hi: nat)
    requires SpacesOk(m0, o0) && p in o0 && o0[p] == Dir && SpacesOk(mem, owner) && Grew(m0, o0, mem, owner, d, {})
    requires d in o0 && o0[d] == Free && d in owner && owner[d] == Dir && p < |m0| && d < |mem| && hi <= KVPN
    requires KVPN + 0x100 < data < KVPN + NPAGES
    requires forall v :: 0 <= v < NVPN ==> Lookup(mem, d, v) == KmapAt(data, v)
    requires forall v :: 0 <= v < hi && v < NVPN ==> Present(Lookup(m0, p, v))
    ensures Copying(m0, o0, mem, owner, p, d, data, hi, 0)
  {
    forall a | a in o0
      ensures !Of(o0[a], a, d)
    {
      assert Housed(o0, o0[a]);
    }
    hide Lookup, KmapAt, DirOk, Grew;
    forall v: nat | v < NVPN
      ensures CopiedAt(m0, mem, p, d, data, 0, v)
    {
    }
  }

  /** What the loop body can rely on: the parent is as it was, its page i is there, the child's is not. */
  lemma CopyingNow(m0: seq<Page>, o0: Uses, mem: seq<Page>, owner: Uses, p: nat, d: nat, data: nat, hi: nat, i: nat)
    requires Copying(m0, o0, mem, owner, p, d, data, hi, i) && i < hi
    ensures DirOk(mem, owner, p) && DirOk(mem, owner, d) && d < |mem| && p < |mem| == |m0| && i < KVPN
    ensures Lookup(mem, p, i) == Lookup(m0, p, i) && Present(Lookup(mem, p, i)) && !Present(Lookup(mem, d, i))
    ensures Present(mem[p].w[Pdx(i)]) && mem[p].w[Pdx(i)].pfn < |mem|
    ensures Lookup(mem, p, i).pfn < |mem| && mem[Lookup(mem, p, i).pfn] == m0[Lookup(m0, p, i).pfn]
  {
    GrewKept(m0, o0, mem, owner, d, {});
    OtherSpaceKept(m0, o0, mem, owner, d, {}, p);
    FrameOf(m0, o0, p, i);
    FrameOf(mem, owner, p, i);
    TableOf(mem, owner, p, Pdx(i));
    assert CopiedAt(m0, mem, p, d, data, i, i);
    var f := Lookup(m0, p, i).pfn;
    assert Of(o0[f], f, p);
  }

  lemma CopyingMore(m0: seq<Page>, o0: Uses, m1: seq<Page>, o1: Uses, m2: seq<Page>, o2: Uses, p: nat, d: nat, data: nat,
                    hi: nat, i: nat, f: nat)
    requires Copying(m0, o0, m1, o1, p, d, data, hi, i) && i < hi && DirOk(m2, o2, d)
    requires Grew(m1, o1, m2, o2, d, {}) && f < 0x100000 && f < |m2| && p < |m0|
    requires Lookup(m0, p, i).pfn < |m0| && m2[f] == m0[Lookup(m0, p, i).pfn]
    requires Mapped(m1, m2, d, i, i + 1, f, Lookup(m0, p, i).flags)
    ensures Started(m0, o0, m2, o2, d) && Copying(m0, o0, m2, o2, p, d, data, hi, i + 1)
  {
    GrewTrans(m0, o0, m1, o1, m2, o2, d, {});
    var next := i + 1;
    hide DirOk, Grew, Lookup, KmapAt, SpacesOk;
    forall v: nat | v < NVPN
      ensures CopiedAt(m0, m2, p, d, data, next, v)
    {
      CopiedNext(m0, m1, o1, m2, o2, p, d, data, i, f, v);
    }
  }

  lemma CopiedNext(m0: seq<Page>, m1: seq<Page>, o1: Uses, m2: seq<Page>, o2: Uses, p: nat, d: nat, data: nat, i: nat, f: nat,
                   v: nat)
    requires CopyOf(m0, m1, p, d, data, i) && v < NVPN && i < KVPN && DirOk(m1, o1, d)
    requires Grew(m1, o1, m2, o2, d, {}) && f < 0x100000 && f < |m2|
    requires forall u :: 0 <= u <= i ==> Present(Lookup(m0, p, u))
    requires Lookup(m0, p, i).pfn < |m0| && m2[f] == m0[Lookup(m0, p, i).pfn]
    requires Mapped(m1, m2, d, i, i + 1, f, Lookup(m0, p, i).flags)
    ensures d < |m2| && CopiedAt(m0, m2, p, d, data, i + 1, v)
  {
    hide DirOk, Grew, Lookup, KmapAt;
    assert CopiedAt(m0, m1, p, d, data, i, v);
    var next, flags := i + 1, Lookup(m0, p, i).flags;
    assert MappedAt(m1, m2, d, i, next, f, flags, v);
    if v < i {
      FrameStays(m1, o1, m2, o2, d, v);
    }
  }

  lemma CopyingStarted(m0: seq<Page>, o0: Uses, m1: seq<Page>, o1: Uses, p: nat, d: nat, data: nat, hi: nat, i: nat)
    requires Copying(m0, o0, m1, o1, p, d, data, hi, i)
    ensures Started(m0, o0, m1, o1, d)
  {
  }

  /** A page that could not be mapped in the child, given back. */
  lemma HeldBack(m0: seq<Page>, o0: Uses, m1: seq<Page>, o1: Uses, m2: seq<Page>, o2: Uses, m3: seq<Page>, d: nat, f: nat)
    requires Started(m0, o0, m1, o1, d) && f in o1 && o1[f] == Free && f in o2 && f < |m2| && f < |m3| && m3 == m2[f := m3[f]]
    requires Grew(m1, o1, m2, o2[f := Free], d, {}) && DirOk(m3, o2[f := Free], d)
    ensures Started(m0, o0, m3, o2[f := Free], d)
  {
    var o := o2[f := Free];
    forall a | a in o1
      ensures a in o && GrewAt(m1, o1, m3, o, d, {}, a)
    {
      assert GrewAt(m1, o1, m2, o, d, {}, a);
    }
    GrewTrans(m0, o0, m1, o1, m3, o, d, {});
  }

  lemma CopyingDone(m0: seq<Page>, o0: Uses, mem: seq<Page>, owner: Uses, p: nat, d: nat, data: nat, hi: nat)
    requires Copying(m0, o0, mem, owner, p, d, data, hi, hi)
    ensures SpacesOk(mem, owner) && UsedSame(m0, o0, mem, owner) && Grew(m0, o0, mem, owner, d, {})
    ensures d in o0 && o0[d] == Free && d in owner && owner[d] == Dir && d != p && CopyOf(m0, mem, p, d, data, hi)
  {
    NewSpaceOk(m0, o0, mem, owner, d);
  }

  lemma IsDir(mem: seq<Page>, owner: Uses, d: nat)
    requires DirOk(mem, owner, d)
    ensures d in owner && owner[d] == Dir && d < |mem| == NPAGES
  {
  }

  lemma NewTable(mem: seq<Page>, owner: Uses, d: nat, i: nat, t: nat)
    requires DirOk(mem, owner, d) && i < NPTE && !Present(mem[d].w[i]) && t in owner && owner[t] == Free
    ensures DirOk(mem, owner[t := Held], d) && t != d && t < |mem|
    ensures var m, o := Tabled(mem, d, i, t), owner[t := Table(d, i)];
      && DirOk(m, o, d) && SameSpace(mem, m, d) && Grew(mem, owner, m, o, d, {})
      && Present(m[d].w[i]) && m[d].w[i].pfn == t
  {
    HeldDirOk(mem, owner, d, t);
    TabledKeeps(mem, owner[t := Held], d, i, t);
    assert owner[t := Held][t := Table(d, i)] == owner[t := Table(d, i)];
  }

  /** Taking a free page for its own use does not concern directory d. */
  lemma HeldDirOk(mem: seq<Page>, owner: Uses, d: nat, t: nat)
    requires DirOk(mem, owner, d) && t in owner && owner[t] == Free
    ensures DirOk(mem, owner[t := Held], d)
  {
    var o := owner[t := Held];
    forall i: nat | i < NPTE
      ensures PdeOk(mem, o, d, i)
    {
      assert PdeOk(mem, owner, d, i);
    }
    forall v: nat | v < NVPN
      ensures PteOk(mem, o, d, v)
    {
      assert PteOk(mem, owner, d, v);
    }
    forall a | a in o
      ensures InPlace(mem, d, a, o[a])
    {
      assert InPlace(mem, d, a, owner[a]);
    }
  }

  /** freerange has freed the pages from lo up to p and changed nothing else. */
  ghost predicate FreedTo(m0: seq<Page>, o0: Uses, m1: seq<Page>, o1: Uses, lo: nat, p: nat) {
    && o1.Keys == o0.Keys && UsedSame(m1, o1, m0, o1)
    && forall a :: a in o0 ==> o1[a] == if lo <= a < p then Free else o0[a]
  }

  lemma PageFits(vend: nat, p: nat)
    ensures p < PageOf(vend) <==> (p + 1) * PGSIZE <= vend
  {
  }

  /** kfree of a page in hand disturbs no address space. */
  lemma FreedKeepsSpaces(m0: seq<Page>, o0: Uses, m1: seq<Page>, o1: Uses, f: nat)
    requires SpacesOk(m0, o0) && f in o0 && o0[f] == Held && f < |m0| == |m1|
    requires m1 == m0[f := m1[f]] && o1 == o0[f := Free]
    ensures SpacesOk(m1, o1)
  {
    forall d | d in o1 && o1[d] == Dir
      ensures DirOk(m1, o1, d)
    {
      assert DirOk(m0, o0, d);
      GivenBack(m0, o0, d, f, m1[f]);
    }
    forall a | a in o1
      ensures Housed(o1, o1[a])
    {
      assert Housed(o0, o0[a]);
    }
  }

  // ----- whole operations on one address space keep all of memory in order

  /** After setupkvm, allocuvm or copyuvm has grown d. */
  lemma GrowthKeepsSpaces(m0: seq<Page>, o0: Uses, m1: seq<Page>, o1: Uses, d: nat)
    requires SpacesOk(m0, o0) && Grew(m0, o0, m1, o1, d, {}) && DirOk(m1, o1, d)
    ensures SpacesOk(m1, o1)
    ensures forall e :: e in o0 && o0[e] == Dir && e != d ==> DirOk(m1, o1, e) && SameSpace(m0, m1, e)
  {
    GrewKept(m0, o0, m1, o1, d, {});
    SpacesAgain(m0, o0, m1, o1, d, {});
    hide DirOk, Lookup;
    forall e | e in o0 && o0[e] == Dir && e != d
      ensures DirOk(m1, o1, e) && SameSpace(m0, m1, e)
    {
      InMemory(m0, o0, e);
      OtherSpaceKept(m0, o0, m1, o1, d, {}, e);
    }
  }

  lemma InMemory(m0: seq<Page>, o0: Uses, e: nat)
    requires SpacesOk(m0, o0) && e in o0 && o0[e] == Dir
    ensures DirOk(m0, o0, e) && e < |m0|
  {
  }

  /** After deallocuvm has shrunk d, or freevm has freed it. */
  lemma ShrinkKeepsSpaces(m0: seq<Page>, o0: Uses, m1: seq<Page>, o1: Uses, d: nat)
    requires SpacesOk(m0, o0) && d in o0 && Shrank(m0, o0, m1, o1, d)
    requires DirOk(m1, o1, d) || forall a :: a in o1 ==> !Of(o1[a], a, d)
    ensures SpacesOk(m1, o1)
    ensures forall e :: e in o0 && o0[e] == Dir && e != d ==> DirOk(m1, o1, e) && SameSpace(m0, m1, e)
  {
    ShrankKept(m0, o0, m1, o1, d);
    SpacesAgain(m0, o0, m1, o1, d, {});
    hide DirOk, Lookup;
    forall e | e in o0 && o0[e] == Dir && e != d
      ensures DirOk(m1, o1, e) && SameSpace(m0, m1, e)
    {
      InMemory(m0, o0, e);
      OtherSpaceKept(m0, o0, m1, o1, d, {}, e);
    }
  }

  /** The frames a walk over every page from lo up to hi would free. */
  function WalkFrees(mem: seq<Page>, d: nat, lo: nat, hi: nat): set<nat>
    requires d < |mem| && hi <= NVPN
  {
    if hi <= lo then {}
    else WalkFrees(mem, d, lo, hi - 1) + if Present(Lookup(mem, d, hi - 1)) then {Lookup(mem, d, hi - 1).pfn} else {}
  }

  /** deallocuvm, which skips absent page tables, frees exactly what the page-by-page walk would. */
  lemma {:induction false} DropsWhatWalkFrees(mem: seq<Page>, owner: Uses, d: nat, lo: nat, hi: nat, a: nat)
    requires DirOk(mem, owner, d) && hi <= KVPN && a in owner
    ensures a in WalkFrees(mem, d, lo, hi) <==> FrameIn(owner[a], d, lo, hi)
    decreases hi
  {
    if lo < hi {
      DropsWhatWalkFrees(mem, owner, d, lo, hi - 1, a);
      assert InPlace(mem, d, a, owner[a]) && PteOk(mem, owner, d, hi - 1);
    }
  }

  /** The child's frames are its own: none is a frame of the parent or of any other address space. */
  lemma CopyApart(m0: seq<Page>, o0: Uses, m1: seq<Page>, o1: Uses, p: nat, d: nat, v: nat, u: nat)
    requires SpacesOk(m0, o0) && p in o0 && o0[p] == Dir && o0.Keys == o1.Keys && UsedSame(m0, o0, m1, o1)
    requires DirOk(m1, o1, d) && d in o0 && o0[d] == Free && v < KVPN && u < KVPN && p < |m0|
    requires Present(Lookup(m1, d, v)) && Present(Lookup(m0, p, u))
    ensures Lookup(m1, d, v).pfn != Lookup(m0, p, u).pfn
  {
    FrameOf(m1, o1, d, v);
    FrameOf(m0, o0, p, u);
    assert UsedSameAt(m0, o0, m1, o1, Lookup(m0, p, u).pfn);
  }
}
