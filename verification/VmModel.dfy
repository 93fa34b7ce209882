/** Physical pages and two-level page tables: what kalloc.c and vm.c keep true of them.
  *
  * A page is 1024 words, each split into its upper 20 bits (a page number) and its lower 12 (flags);
  * kernel pointers to pages are given by their physical page number, 0 for the null pointer.
  */
module VmModel {

  const PGSIZE: nat := 4096
  const NPTE: nat := 1024
  const NVPN: nat := 0x100000           // pages of the virtual address space
  const KERNBASE: nat := 0x80000000
  const KVPN: nat := 0x80000            // KERNBASE / PGSIZE
  const NPAGES: nat := 0xE000           // PHYSTOP / PGSIZE

  type Pfn = x: int | 0 <= x < 0x100000
  type Flags = x: int | 0 <= x < 4096

  const PTE_P: Flags := 1
  const PTE_W: Flags := 2
  const PTE_U: Flags := 4

  datatype Entry = Entry(pfn: Pfn, flags: Flags)

  const NONE: Entry := Entry(0, 0)

  datatype RawPage = RawPage(w: seq<Entry>)
  type Page = p: RawPage | |p.w| == NPTE witness RawPage(seq(NPTE, _ => Entry(0, 0)))

  predicate Present(e: Entry) {
    e.flags % 2 == 1
  }

  /** flags | PTE_P */
  function WithP(flags: Flags): (r: Flags)
    ensures Present(Entry(0, r))
  {
    if flags % 2 == 1 then flags else flags + 1
  }

  function Fill(n: nat, e: Entry): (r: seq<Entry>)
    ensures |r| == n && forall i :: 0 <= i < n ==> r[i] == e
  {
    if n == 0 then [] else Fill(n - 1, e) + [e]
  }

  /** memset(page, 0, PGSIZE) */
  function ZeroPage(): (p: Page)
    ensures forall i :: 0 <= i < NPTE ==> p.w[i] == NONE
  {
    RawPage(Fill(NPTE, NONE))
  }

  /** What kfree leaves in a page: junk bytes of 1, and struct run in the first word. */
  function RunPage(next: nat): (p: Page)
    requires next < NPAGES
  {
    RawPage(Fill(NPTE, Entry(0x01010, 0x101))[0 := RunPointer(next)])
  }

  /** The pointer P2V(next), or the null pointer. */
  function RunPointer(next: nat): Entry
    requires next < NPAGES
  {
    if next == 0 then NONE else Entry(next + KVPN, 0)
  }

  function Pdx(v: nat): (i: nat)
    ensures v < NVPN ==> i < NPTE
  {
    v / NPTE
  }

  function Ptx(v: nat): (i: nat)
    ensures i < NPTE
  {
    v % NPTE
  }

  lemma SameEntry(u: nat, v: nat)
    ensures Pdx(u) == Pdx(v) && Ptx(u) == Ptx(v) <==> u == v
  {
  }

  /** The page table entry for page v of the address space with directory d; NONE without a table. */
  function Lookup(mem: seq<Page>, d: nat, v: nat): Entry
    requires d < |mem| && v < NVPN
  {
    var pde := mem[d].w[Pdx(v)];
    if Present(pde) && pde.pfn < |mem| then mem[pde.pfn].w[Ptx(v)] else NONE
  }

  // ----- what each page is for

  /** Held: in the hands of a caller of kalloc.  Table i and the frame of page v belong to directory d. */
  datatype Use = Free | Held | Dir | Table(d: nat, i: nat) | Frame(d: nat, v: nat)

  /** Page a with use u belongs to the address space of d. */
  predicate Of(u: Use, a: nat, d: nat) {
    match u
    case Dir => a == d
    case Table(e, _) => e == d
    case Frame(e, _) => e == d
    case _ => false
  }

  type Uses = map<nat, Use>

  predicate PdeOk(mem: seq<Page>, owner: Uses, d: nat, i: nat)
    requires d < |mem| && i < NPTE
  {
    var e := mem[d].w[i];
    Present(e) ==> e.pfn in owner && owner[e.pfn] == Table(d, i)
  }

  predicate PteOk(mem: seq<Page>, owner: Uses, d: nat, v: nat)
    requires d < |mem| && v < NVPN
  {
    var e := Lookup(mem, d, v);
    v < KVPN && Present(e) ==> e.pfn in owner && owner[e.pfn] == Frame(d, v)
  }

  predicate InPlace(mem: seq<Page>, d: nat, a: nat, u: Use)
    requires d < |mem|
  {
    match u
    case Table(e, i) => e == d ==> i < NPTE && Present(mem[d].w[i]) && mem[d].w[i].pfn == a
    case Frame(e, v) => e == d ==> v < KVPN && Present(Lookup(mem, d, v)) && Lookup(mem, d, v).pfn == a
    case _ => true
  }

  /** Directory d's present entries and the pages recorded as its own correspond one to one. */
  ghost predicate DirOk(mem: seq<Page>, owner: Uses, d: nat) {
    && d in owner && owner[d] == Dir && PagesOk(mem, owner)
    && (forall i :: 0 <= i < NPTE ==> PdeOk(mem, owner, d, i))
    && (forall v :: 0 <= v < NVPN ==> PteOk(mem, owner, d, v))
    && (forall a :: a in owner ==> InPlace(mem, d, a, owner[a]))
  }

  /** Only pages between the end of the kernel and PHYSTOP are handed out. */
  ghost predicate PagesOk(mem: seq<Page>, owner: Uses) {
    |mem| == NPAGES && forall a :: a in owner ==> 0 < a < NPAGES
  }

  // ----- the free list

  function NextOf(free: seq<nat>, k: nat): nat
    requires k < |free|
  {
    if k + 1 < |free| then free[k + 1] else 0
  }

  predicate LinkOk(mem: seq<Page>, owner: Uses, free: seq<nat>, k: nat)
    requires k < |free|
  {
    && free[k] in owner && owner[free[k]] == Free && free[k] < |mem|
    && NextOf(free, k) < NPAGES && mem[free[k]].w[0] == RunPointer(NextOf(free, k))
  }

  /** The list headed by freelist is free: every free page, each once, linked through its first word. */
  ghost predicate ListOk(mem: seq<Page>, owner: Uses, free: seq<nat>, freelist: nat) {
    && PagesOk(mem, owner)
    && freelist == (if free == [] then 0 else free[0])
    && (forall k :: 0 <= k < |free| ==> LinkOk(mem, owner, free, k))
    && (forall a :: a in owner && owner[a] == Free ==> a in free)
    && (forall j, k :: 0 <= j < k < |free| ==> free[j] != free[k])
  }

  lemma TakeKeepsList(mem: seq<Page>, owner: Uses, free: seq<nat>, freelist: nat)
    requires ListOk(mem, owner, free, freelist) && free != []
    ensures ListOk(mem, owner[freelist := Held], free[1..], NextOf(free, 0))
    ensures LinkOk(mem, owner, free, 0) && freelist == free[0]
  {
    assert LinkOk(mem, owner, free, 0);
    var owner', free' := owner[freelist := Held], free[1..];
    forall k: nat | k < |free'|
      ensures LinkOk(mem, owner', free', k)
    {
      assert LinkOk(mem, owner, free, k + 1);
    }
    forall a | a in owner' && owner'[a] == Free
      ensures a in free'
    {
      var k :| 0 <= k < |free| && free[k] == a;
      assert free'[k - 1] == a;
    }
  }

  lemma PutKeepsList(mem: seq<Page>, owner: Uses, free: seq<nat>, freelist: nat, a: nat)
    requires ListOk(mem, owner, free, freelist) && a in owner && owner[a] != Free
    ensures 0 < a < |mem| && freelist < NPAGES
    ensures var run: Page := RunPage(freelist); ListOk(mem[a := run], owner[a := Free], [a] + free, a)
  {
    if free != [] {
      assert LinkOk(mem, owner, free, 0);
    }
    var run: Page := RunPage(freelist);
    var mem', owner', free' := mem[a := run], owner[a := Free], [a] + free;
    forall k: nat | k < |free'|
      ensures LinkOk(mem', owner', free', k)
    {
      if k > 0 {
        assert LinkOk(mem, owner, free, k - 1);
        assert NextOf(free', k) == NextOf(free, k - 1);
      }
    }
    forall j: nat, k: nat | j < k < |free'|
      ensures free'[j] != free'[k]
    {
      assert LinkOk(mem, owner, free, k - 1);
    }
    assert free'[0] == a;
    forall x | x in owner' && owner'[x] == Free
      ensures x in free'
    {
      if x != a {
        var k :| 0 <= k < |free| && free[k] == x;
        assert free'[k + 1] == x;
      }
    }
  }

  /** The list does not depend on pages in use. */
  lemma ListFrame(mem: seq<Page>, owner: Uses, mem': seq<Page>, owner': Uses, free: seq<nat>, freelist: nat)
    requires ListOk(mem, owner, free, freelist) && |mem'| == |mem| && owner'.Keys == owner.Keys
    requires forall a :: a in owner ==> (owner'[a] == Free <==> owner[a] == Free)
    requires forall a :: a in owner && owner[a] == Free && a < |mem| ==> mem'[a] == mem[a]
    ensures ListOk(mem', owner', free, freelist)
  {
    forall k: nat | k < |free|
      ensures LinkOk(mem', owner', free, k)
    {
      assert LinkOk(mem, owner, free, k);
    }
    forall a | a in owner'
      ensures 0 < a < NPAGES
      ensures owner'[a] == Free ==> a in free
    {
      assert a in owner;
    }
  }

  // ----- what an operation on one address space leaves alone

  /** Page a keeps its use and its contents, unless it was free, belonged to d, or was given to the operation. */
  predicate KeptAt(mem: seq<Page>, owner: Uses, mem': seq<Page>, owner': Uses, d: nat, given: set<nat>, a: nat)
    requires a in owner && a in owner' && |mem| == |mem'|
  {
    && (owner[a] == Free || Of(owner[a], a, d) || a in given || (owner'[a] == owner[a] && (a < |mem| ==> mem'[a] == mem[a])))
    && (owner'[a] == owner[a] || owner'[a] == Free || owner'[a] == Held || Of(owner'[a], a, d))
  }

  ghost predicate Kept(mem: seq<Page>, owner: Uses, mem': seq<Page>, owner': Uses, d: nat, given: set<nat>) {
    && |mem'| == |mem| && owner'.Keys == owner.Keys
    && forall a :: a in owner ==> KeptAt(mem, owner, mem', owner', d, given, a)
  }

  /** Another address space keeps exactly its pages, its mappings and the contents of its frames. */
  lemma OtherSpaceKept(mem: seq<Page>, owner: Uses, mem': seq<Page>, owner': Uses, d: nat, given: set<nat>, e: nat)
    requires DirOk(mem, owner, e) && Kept(mem, owner, mem', owner', d, given) && e != d
    requires forall a :: a in given && a in owner ==> owner[a] == Free || owner[a] == Held || Of(owner[a], a, d)
    ensures DirOk(mem', owner', e)
    ensures forall v :: 0 <= v < NVPN ==> Lookup(mem', e, v) == Lookup(mem, e, v)
    ensures forall a :: a in owner && Of(owner[a], a, e) ==> a < |mem| && mem'[a] == mem[a] && owner'[a] == owner[a]
  {
    forall a | a in owner && Of(owner[a], a, e)
      ensures a < |mem| && mem'[a] == mem[a] && owner'[a] == owner[a]
    {
      assert KeptAt(mem, owner, mem', owner', d, given, a);
    }
    forall v: nat | v < NVPN
      ensures Lookup(mem', e, v) == Lookup(mem, e, v)
    {
      assert PdeOk(mem, owner, e, Pdx(v));
    }
    forall i: nat | i < NPTE
      ensures PdeOk(mem', owner', e, i)
    {
      assert PdeOk(mem, owner, e, i);
    }
    forall v: nat | v < NVPN
      ensures PteOk(mem', owner', e, v)
    {
      assert PteOk(mem, owner, e, v);
    }
    forall a | a in owner'
      ensures InPlace(mem', e, a, owner'[a])
    {
      assert a in owner;
      assert KeptAt(mem, owner, mem', owner', d, given, a) && InPlace(mem, e, a, owner[a]);
    }
  }

  // ----- the whole of memory

  predicate Housed(owner: Uses, u: Use) {
    match u
    case Table(d, _) => d in owner && owner[d] == Dir
    case Frame(d, _) => d in owner && owner[d] == Dir
    case _ => true
  }

  /** Between operations: every directory is in order and no page belongs to a directory that is gone.
    * As each page has one use, free pages, directories, tables and frames are disjoint.
    */
  ghost predicate SpacesOk(mem: seq<Page>, owner: Uses) {
    && (forall d :: d in owner && owner[d] == Dir ==> DirOk(mem, owner, d))
    && (forall a :: a in owner ==> Housed(owner, owner[a]))
  }

  /** Two entries of any address spaces that map user pages never share a frame. */
  lemma FramesApart(mem: seq<Page>, owner: Uses, d: nat, v: nat, e: nat, u: nat)
    requires DirOk(mem, owner, d) && DirOk(mem, owner, e) && v < KVPN && u < KVPN
    requires Present(Lookup(mem, d, v)) && Present(Lookup(mem, e, u))
    requires Lookup(mem, d, v).pfn == Lookup(mem, e, u).pfn
    ensures d == e && v == u
  {
    assert PteOk(mem, owner, d, v) && PteOk(mem, owner, e, u);
  }

  lemma SpacesAgain(mem: seq<Page>, owner: Uses, mem': seq<Page>, owner': Uses, d: nat, given: set<nat>)
    requires SpacesOk(mem, owner) && Kept(mem, owner, mem', owner', d, given)
    requires forall a :: a in given && a in owner ==> owner[a] == Free || owner[a] == Held || Of(owner[a], a, d)
    requires d in owner && (DirOk(mem', owner', d) || forall a :: a in owner' ==> !Of(owner'[a], a, d))
    ensures SpacesOk(mem', owner')
  {
    hide DirOk;
    forall e | e in owner' && owner'[e] == Dir
      ensures DirOk(mem', owner', e)
    {
      if e != d {
        assert KeptAt(mem, owner, mem', owner', d, given, e);
        OtherSpaceKept(mem, owner, mem', owner', d, given, e);
      } else {
        assert Of(owner'[e], e, d);
      }
    }
    forall a | a in owner'
      ensures Housed(owner', owner'[a])
    {
      assert KeptAt(mem, owner, mem', owner', d, given, a);
      HousedAgain(mem, owner, mem', owner', d, given, a);
    }
  }

  lemma HousedAgain(mem: seq<Page>, owner: Uses, mem': seq<Page>, owner': Uses, d: nat, given: set<nat>, a: nat)
    requires SpacesOk(mem, owner) && Kept(mem, owner, mem', owner', d, given) && a in owner'
    requires forall a :: a in given && a in owner ==> owner[a] == Free || owner[a] == Held || Of(owner[a], a, d)
    requires d in owner && (DirOk(mem', owner', d) || forall a :: a in owner' ==> !Of(owner'[a], a, d))
    ensures Housed(owner', owner'[a])
  {
    assert KeptAt(mem, owner, mem', owner', d, given, a);
    if owner'[a].Table? || owner'[a].Frame? {
      var e := owner'[a].d;
      assert Of(owner'[a], a, e);
      if e != d {
        assert owner'[a] == owner[a];
        assert Housed(owner, owner[a]);
        assert KeptAt(mem, owner, mem', owner', d, given, e);
      }
    }
  }

  // ----- building and editing one address space

  lemma TableOf(mem: seq<Page>, owner: Uses, d: nat, i: nat)
    requires DirOk(mem, owner, d) && i < NPTE && Present(mem[d].w[i])
    ensures var t := mem[d].w[i].pfn; 0 < t < |mem| && t != d && t in owner && owner[t] == Table(d, i)
  {
    assert PdeOk(mem, owner, d, i);
  }

  lemma FrameOf(mem: seq<Page>, owner: Uses, d: nat, v: nat)
    requires DirOk(mem, owner, d) && v < KVPN && Present(Lookup(mem, d, v))
    ensures var f := Lookup(mem, d, v).pfn; 0 < f < |mem| && f in owner && owner[f] == Frame(d, v)
    ensures Present(mem[d].w[Pdx(v)])
  {
    assert PteOk(mem, owner, d, v);
  }

  /** walkpgdir's new page table t for directory entry i. */
  function Tabled(mem: seq<Page>, d: nat, i: nat, t: nat): (r: seq<Page>)
    requires d < |mem| && t < |mem| && i < NPTE && t < 0x100000
    ensures |r| == |mem|
  {
    var dir: Page := RawPage(mem[d].w[i := Entry(t, PTE_P + PTE_W + PTE_U)]);
    mem[t := ZeroPage()][d := dir]
  }

  /** *pte = e */
  function Stored(mem: seq<Page>, d: nat, v: nat, e: Entry): (r: seq<Page>)
    requires d < |mem| && v < NVPN && mem[d].w[Pdx(v)].pfn < |mem|
    ensures |r| == |mem|
  {
    var t := mem[d].w[Pdx(v)].pfn;
    var tab: Page := RawPage(mem[t].w[Ptx(v) := e]);
    mem[t := tab]
  }

  lemma LookupTabled(mem: seq<Page>, owner: Uses, d: nat, i: nat, t: nat, u: nat)
    requires DirOk(mem, owner, d) && i < NPTE && u < NVPN && t in owner && owner[t] == Held && !Present(mem[d].w[i])
    ensures Lookup(Tabled(mem, d, i, t), d, u) == Lookup(mem, d, u)
  {
    if Present(mem[d].w[Pdx(u)]) {
      TableOf(mem, owner, d, Pdx(u));
    }
  }

  /** A new empty table changes no mapping; the directory stays in order. */
  lemma TabledKeeps(mem: seq<Page>, owner: Uses, d: nat, i: nat, t: nat)
    requires DirOk(mem, owner, d) && i < NPTE && t in owner && owner[t] == Held && !Present(mem[d].w[i])
    ensures DirOk(Tabled(mem, d, i, t), owner[t := Table(d, i)], d)
    ensures forall u :: 0 <= u < NVPN ==> Lookup(Tabled(mem, d, i, t), d, u) == Lookup(mem, d, u)
    ensures Present(Tabled(mem, d, i, t)[d].w[i]) && Tabled(mem, d, i, t)[d].w[i].pfn == t
  {
    var mem', owner' := Tabled(mem, d, i, t), owner[t := Table(d, i)];
    forall u: nat | u < NVPN
      ensures Lookup(mem', d, u) == Lookup(mem, d, u)
    {
      LookupTabled(mem, owner, d, i, t, u);
    }
    hide Lookup;
    forall j: nat | j < NPTE
      ensures PdeOk(mem', owner', d, j)
    {
      assert PdeOk(mem, owner, d, j);
    }
    forall u: nat | u < NVPN
      ensures PteOk(mem', owner', d, u)
    {
      assert PteOk(mem, owner, d, u);
    }
    forall a | a in owner'
      ensures InPlace(mem', d, a, owner'[a])
    {
      assert InPlace(mem, d, a, owner[a]);
    }
  }

  lemma LookupStored(mem: seq<Page>, owner: Uses, d: nat, v: nat, e: Entry, u: nat)
    requires DirOk(mem, owner, d) && v < NVPN && u < NVPN && Present(mem[d].w[Pdx(v)])
    ensures mem[d].w[Pdx(v)].pfn < |mem|
    ensures Stored(mem, d, v, e)[d] == mem[d]
    ensures Lookup(Stored(mem, d, v, e), d, u) == if u == v then e else Lookup(mem, d, u)
  {
    SameEntry(u, v);
    TableOf(mem, owner, d, Pdx(v));
    if Present(mem[d].w[Pdx(u)]) {
      TableOf(mem, owner, d, Pdx(u));
    }
  }

  /** The use of the frame that entry e puts at page v. */
  function Entered(owner: Uses, d: nat, v: nat, e: Entry): Uses {
    if v < KVPN then owner[e.pfn := Frame(d, v)] else owner
  }

  lemma StoredDirOk(mem: seq<Page>, owner: Uses, d: nat, v: nat, e: Entry, owner': Uses)
    requires DirOk(mem, owner, d) && v < NVPN && Present(mem[d].w[Pdx(v)])
    requires mem[d].w[Pdx(v)].pfn < |mem| && owner'.Keys == owner.Keys
    requires forall a :: a in owner && owner'[a] != owner[a] ==>
      (v < KVPN && Present(e) && a == e.pfn && owner'[a] == Frame(d, v) && !Of(owner[a], a, d))
      || (owner[a] == Frame(d, v) && owner'[a] == Free && !Present(e))
    requires v < KVPN && Present(e) ==> e.pfn in owner && owner'[e.pfn] == Frame(d, v) && !Present(Lookup(mem, d, v))
    requires v < KVPN && !Present(e) ==> forall a :: a in owner ==> owner'[a] != Frame(d, v)
    ensures DirOk(Stored(mem, d, v, e), owner', d)
  {
    var mem' := Stored(mem, d, v, e);
    forall u: nat | u < NVPN
      ensures Lookup(mem', d, u) == if u == v then e else Lookup(mem, d, u)
    {
      LookupStored(mem, owner, d, v, e, u);
    }
    LookupStored(mem, owner, d, v, e, v);
    assert mem'[d] == mem[d];
    hide Lookup, Stored;
    forall j: nat | j < NPTE
      ensures PdeOk(mem', owner', d, j)
    {
      assert PdeOk(mem, owner, d, j);
    }
    forall u: nat | u < NVPN
      ensures PteOk(mem', owner', d, u)
    {
      assert PteOk(mem, owner, d, u);
    }
    forall a | a in owner'
      ensures InPlace(mem', d, a, owner'[a])
    {
      assert a in owner && InPlace(mem, d, a, owner[a]);
    }
  }

  /** Entering a held frame for an unmapped user page, or any page number for a kernel page. */
  lemma EnterKeeps(mem: seq<Page>, owner: Uses, d: nat, v: nat, e: Entry)
    requires DirOk(mem, owner, d) && v < NVPN && Present(mem[d].w[Pdx(v)]) && mem[d].w[Pdx(v)].pfn < |mem|
    requires Present(e) && !Present(Lookup(mem, d, v)) && (v < KVPN ==> e.pfn in owner && owner[e.pfn] == Held)
    ensures DirOk(Stored(mem, d, v, e), Entered(owner, d, v, e), d)
    ensures Kept(mem, owner, Stored(mem, d, v, e), Entered(owner, d, v, e), d, if v < KVPN then {e.pfn} else {})
  {
    TableOf(mem, owner, d, Pdx(v));
    StoredDirOk(mem, owner, d, v, e, Entered(owner, d, v, e));
  }

  /** kfree of the frame of page v, then *pte = 0. */
  lemma UnmapKeeps(mem: seq<Page>, owner: Uses, d: nat, v: nat, f: nat, junk: Page)
    requires DirOk(mem, owner, d) && v < KVPN && Present(Lookup(mem, d, v)) && f == Lookup(mem, d, v).pfn
    ensures f < |mem| && mem[f := junk][d] == mem[d] && mem[d].w[Pdx(v)].pfn < |mem|
    ensures var mem', owner' := Stored(mem[f := junk], d, v, NONE), owner[f := Free];
      && DirOk(mem', owner', d) && Kept(mem, owner, mem', owner', d, {})
      && forall u :: 0 <= u < NVPN ==> Lookup(mem', d, u) == if u == v then NONE else Lookup(mem, d, u)
  {
    FrameOf(mem, owner, d, v);
    TableOf(mem, owner, d, Pdx(v));
    var t := mem[d].w[Pdx(v)].pfn;
    var mem', owner' := Stored(mem[f := junk], d, v, NONE), owner[f := Free];
    var mem1 := Stored(mem, d, v, NONE);
    assert mem' == mem1[f := junk];
    OnlyFrame(mem, owner, d, v);
    StoredDirOk(mem, owner, d, v, NONE, owner');
    forall u: nat | u < NVPN
      ensures Lookup(mem1, d, u) == if u == v then NONE else Lookup(mem, d, u)
    {
      LookupStored(mem, owner, d, v, NONE, u);
    }
    FrameContents(mem1, owner', d, f, junk);
  }

  lemma OnlyFrame(mem: seq<Page>, owner: Uses, d: nat, v: nat)
    requires DirOk(mem, owner, d) && v < NVPN
    ensures forall a :: a in owner && owner[a] == Frame(d, v) ==> a == Lookup(mem, d, v).pfn && Present(Lookup(mem, d, v))
  {
    forall a | a in owner && owner[a] == Frame(d, v)
      ensures a == Lookup(mem, d, v).pfn && Present(Lookup(mem, d, v))
    {
      assert InPlace(mem, d, a, owner[a]);
    }
  }

  /** The contents of a page that is neither the directory nor one of its tables do not matter to it. */
  lemma FrameContents(mem: seq<Page>, owner: Uses, d: nat, f: nat, p: Page)
    requires DirOk(mem, owner, d) && f in owner && owner[f] != Dir && !owner[f].Table?
    ensures f < |mem| && DirOk(mem[f := p], owner, d)
    ensures forall u :: 0 <= u < NVPN ==> Lookup(mem[f := p], d, u) == Lookup(mem, d, u)
  {
    var mem' := mem[f := p];
    forall u: nat | u < NVPN
      ensures Lookup(mem', d, u) == Lookup(mem, d, u)
    {
      if Present(mem[d].w[Pdx(u)]) {
        TableOf(mem, owner, d, Pdx(u));
      }
    }
    hide Lookup;
    forall j: nat | j < NPTE
      ensures PdeOk(mem', owner, d, j)
    {
      assert PdeOk(mem, owner, d, j);
    }
    forall u: nat | u < NVPN
      ensures PteOk(mem', owner, d, u)
    {
      assert PteOk(mem, owner, d, u);
    }
    forall a | a in owner
      ensures InPlace(mem', d, a, owner[a])
    {
      assert InPlace(mem, d, a, owner[a]);
    }
  }

  // ----- how the pages of a growing, a shrinking and a freed address space change

  /** Only free pages and given ones become pages of d; every other page keeps its use, and all but d's own
    * directory and tables keep their contents.
    */
  predicate GrewAt(m0: seq<Page>, o0: Uses, m1: seq<Page>, o1: Uses, d: nat, given: set<nat>, a: nat)
    requires a in o0 && a in o1 && a < |m0| == |m1|
  {
    if o0[a] == Free then o1[a] == Free || Of(o1[a], a, d)
    else if a in given then m1[a] == m0[a] && (o1[a] == o0[a] || (o1[a].Frame? && o1[a].d == d))
    else o1[a] == o0[a] && (m1[a] == m0[a] || (Of(o0[a], a, d) && !o0[a].Frame?))
  }

  ghost predicate Grew(m0: seq<Page>, o0: Uses, m1: seq<Page>, o1: Uses, d: nat, given: set<nat>) {
    && PagesOk(m0, o0) && PagesOk(m1, o1) && o0.Keys == o1.Keys
    && forall a :: a in o0 ==> GrewAt(m0, o0, m1, o1, d, given, a)
  }

  lemma GrewTrans(m0: seq<Page>, o0: Uses, m1: seq<Page>, o1: Uses, m2: seq<Page>, o2: Uses, d: nat, g: set<nat>)
    requires Grew(m0, o0, m1, o1, d, g) && Grew(m1, o1, m2, o2, d, g)
    ensures Grew(m0, o0, m2, o2, d, g)
  {
    forall a | a in o0
      ensures GrewAt(m0, o0, m2, o2, d, g, a)
    {
      assert a in o1 && GrewAt(m0, o0, m1, o1, d, g, a) && GrewAt(m1, o1, m2, o2, d, g, a);
    }
  }

  /** Pages given as frames: still held, or already entered. */
  ghost predicate DataPages(owner: Uses, given: set<nat>) {
    forall a :: a in given ==> a in owner && (owner[a] == Held || owner[a].Frame?)
  }

  lemma GrewGiven(m0: seq<Page>, o0: Uses, m1: seq<Page>, o1: Uses, d: nat, g: set<nat>)
    requires Grew(m0, o0, m1, o1, d, {}) && DataPages(o0, g)
    ensures Grew(m0, o0, m1, o1, d, g) && DataPages(o1, g)
  {
    forall a | a in o0
      ensures GrewAt(m0, o0, m1, o1, d, g, a)
      ensures a in g ==> o1[a] == o0[a]
    {
      assert GrewAt(m0, o0, m1, o1, d, {}, a);
    }
  }

  lemma GrewKept(m0: seq<Page>, o0: Uses, m1: seq<Page>, o1: Uses, d: nat, g: set<nat>)
    requires Grew(m0, o0, m1, o1, d, g)
    ensures Kept(m0, o0, m1, o1, d, g)
  {
    forall a | a in o0
      ensures a in o1 && KeptAt(m0, o0, m1, o1, d, g, a)
    {
      assert GrewAt(m0, o0, m1, o1, d, g, a);
    }
  }

  /** Pages of d, and no others, may have become free; the rest keep their use, and all but d's tables their contents. */
  predicate ShrankAt(m0: seq<Page>, o0: Uses, m1: seq<Page>, o1: Uses, d: nat, a: nat)
    requires a in o0 && a in o1 && a < |m0| == |m1|
  {
    || (o1[a] == Free && (o0[a] == Free || Of(o0[a], a, d)))
    || (o1[a] == o0[a] && (m1[a] == m0[a] || (Of(o0[a], a, d) && !o0[a].Frame?)))
  }

  ghost predicate Shrank(m0: seq<Page>, o0: Uses, m1: seq<Page>, o1: Uses, d: nat) {
    && PagesOk(m0, o0) && PagesOk(m1, o1) && o0.Keys == o1.Keys
    && forall a :: a in o0 ==> ShrankAt(m0, o0, m1, o1, d, a)
  }

  lemma ShrankTrans(m0: seq<Page>, o0: Uses, m1: seq<Page>, o1: Uses, m2: seq<Page>, o2: Uses, d: nat)
    requires Shrank(m0, o0, m1, o1, d) && Shrank(m1, o1, m2, o2, d)
    ensures Shrank(m0, o0, m2, o2, d)
  {
    forall a | a in o0
      ensures ShrankAt(m0, o0, m2, o2, d, a)
    {
      assert a in o1 && ShrankAt(m0, o0, m1, o1, d, a) && ShrankAt(m1, o1, m2, o2, d, a);
    }
  }

  lemma ShrankKept(m0: seq<Page>, o0: Uses, m1: seq<Page>, o1: Uses, d: nat)
    requires Shrank(m0, o0, m1, o1, d)
    ensures Kept(m0, o0, m1, o1, d, {})
  {
    forall a | a in o0
      ensures a in o1 && KeptAt(m0, o0, m1, o1, d, {}, a)
    {
      assert ShrankAt(m0, o0, m1, o1, d, a);
    }
  }

  /** Growing a new address space and then freeing all of it gives back exactly the uses there were. */
  lemma FreeUndoesGrowth(m0: seq<Page>, o0: Uses, m1: seq<Page>, o1: Uses, o2: Uses, d: nat)
    requires Grew(m0, o0, m1, o1, d, {}) && o2.Keys == o1.Keys
    requires forall a :: a in o0 ==> !Of(o0[a], a, d)
    requires forall a :: a in o1 ==> o2[a] == if Of(o1[a], a, d) then Free else o1[a]
    ensures o2 == o0
  {
    forall a | a in o0
      ensures a in o1 && a in o2 && o2[a] == o0[a]
    {
      assert GrewAt(m0, o0, m1, o1, d, {}, a);
    }
  }

  // ----- the kernel's mappings

  const KERNLINK: nat := 0x80100000
  const PHYSTOP: nat := 0xE000000
  const DEVSPACE: nat := 0xFE000000
  const DEVVPN: nat := 0xFE000

  /** What every page directory maps at page v; data is the page of the symbol data. */
  function KmapAt(data: nat, v: nat): Entry
    requires KVPN + 0x100 < data < KVPN + NPAGES && v < NVPN
  {
    if KVPN <= v < KVPN + 0x100 then Entry(v - KVPN, PTE_P + PTE_W)          // I/O space
    else if KVPN + 0x100 <= v < data then Entry(v - KVPN, PTE_P)              // kernel text and read-only data
    else if data <= v < KVPN + NPAGES then Entry(v - KVPN, PTE_P + PTE_W)     // kernel data and all memory
    else if DEVVPN <= v then Entry(v, PTE_P + PTE_W)                          // devices
    else NONE
  }

  /** PGROUNDUP(x) / PGSIZE */
  function Up(x: nat): nat {
    (x + PGSIZE - 1) / PGSIZE
  }

  lemma UpBelow(x: nat, v: nat)
    ensures v * PGSIZE < x <==> v < Up(x)
    ensures x <= KERNBASE ==> Up(x) <= KVPN
  {
  }

  /** mappages' promise for page u once [first, m) has been mapped. */
  predicate MappedAt(m0: seq<Page>, m1: seq<Page>, d: nat, first: nat, m: nat, pfn: nat, perm: Flags, u: nat)
    requires d < |m0| && d < |m1| && u < NVPN && pfn + m <= 0x100000 + first
  {
    Lookup(m1, d, u) == if first <= u < m then Entry(pfn + (u - first), WithP(perm)) else Lookup(m0, d, u)
  }

  ghost predicate Mapped(m0: seq<Page>, m1: seq<Page>, d: nat, first: nat, m: nat, pfn: nat, perm: Flags) {
    && d < |m0| && d < |m1| && first <= m && pfn + m <= 0x100000 + first
    && forall u :: 0 <= u < NVPN ==> MappedAt(m0, m1, d, first, m, pfn, perm, u)
  }

  /** The frame for user page u of the range is in the caller's hands. */
  predicate FrameReady(owner: Uses, given: set<nat>, pfn: nat, first: nat, u: nat) {
    first <= u < KVPN ==> var a := pfn + (u - first); a in given && a in owner && owner[a] == Held
  }

  /** Entering a page: the list, the directory and everyone else. */
  lemma EnterGrew(mem: seq<Page>, owner: Uses, d: nat, v: nat, e: Entry, given: set<nat>, free: seq<nat>, freelist: nat)
    requires DirOk(mem, owner, d) && v < NVPN && Present(mem[d].w[Pdx(v)]) && mem[d].w[Pdx(v)].pfn < |mem|
    requires Present(e) && !Present(Lookup(mem, d, v))
    requires v < KVPN ==> e.pfn in owner && owner[e.pfn] == Held && e.pfn in given
    requires ListOk(mem, owner, free, freelist) && DataPages(owner, given)
    ensures var m, o := Stored(mem, d, v, e), Entered(owner, d, v, e);
      && DirOk(m, o, d) && Grew(mem, owner, m, o, d, given) && ListOk(m, o, free, freelist) && DataPages(o, given)
      && forall u :: 0 <= u < NVPN ==> Lookup(m, d, u) == if u == v then e else Lookup(mem, d, u)
  {
    var m, o := Stored(mem, d, v, e), Entered(owner, d, v, e);
    EnterKeeps(mem, owner, d, v, e);
    TableOf(mem, owner, d, Pdx(v));
    ListFrame(mem, owner, m, o, free, freelist);
    forall u: nat | u < NVPN
      ensures Lookup(m, d, u) == if u == v then e else Lookup(mem, d, u)
    {
      LookupStored(mem, owner, d, v, e, u);
    }
    forall a | a in owner
      ensures GrewAt(mem, owner, m, o, d, given, a)
    {
    }
  }

  // ----- what an operation costs in free pages

  /** The entries of directory page p with a page table. */
  ghost function Tables(p: Page): set<nat> {
    set i: nat | i < NPTE && Present(p.w[i])
  }

  ghost function Range(lo: nat, hi: nat): (r: set<nat>)
    ensures forall i :: i in r <==> lo <= i < hi
    ensures lo <= hi ==> |r| == hi - lo
  {
    if hi <= lo then {} else Range(lo, hi - 1) + {hi - 1}
  }

  /** The directory entries whose tables map the pages [lo, hi). */
  ghost function Pdes(lo: nat, hi: nat): set<nat> {
    if lo < hi then Range(Pdx(lo), Pdx(hi - 1) + 1) else {}
  }

  lemma PdesJoin(lo: nat, mid: nat, hi: nat)
    requires lo <= mid <= hi
    ensures Pdes(lo, hi) == Pdes(lo, mid) + Pdes(mid, hi)
  {
    if lo < mid < hi {
      PdxNext(lo, mid, hi);
      var a, b, c := Pdx(lo), Pdx(mid), Pdx(hi - 1) + 1;
      assert Range(a, c) == Range(a, Pdx(mid - 1) + 1) + Range(b, c);
    }
  }

  lemma PdxNext(lo: nat, mid: nat, hi: nat)
    requires lo < mid < hi
    ensures Pdx(lo) <= Pdx(mid - 1) <= Pdx(mid) <= Pdx(hi - 1) && Pdx(mid) <= Pdx(mid - 1) + 1
  {
  }

  lemma PdesOne(v: nat)
    ensures Pdes(v, v + 1) == {Pdx(v)}
  {
    assert Range(Pdx(v), Pdx(v) + 1) == {Pdx(v)};
  }

  lemma Smaller(a: set<nat>, b: set<nat>)
    requires a <= b
    ensures |a| <= |b| && (a != b ==> |a| < |b|)
  {
    assert b == a + (b - a);
  }

  /** An operation on a directory took the given number of frames, and page tables until the entries in more had
    * one; it failed exactly for want of pages.  Stock s counts the free pages and the directory's tables, h is
    * the set of entries with a table.
    */
  ghost predicate Paid(s0: nat, h0: set<nat>, s1: nat, h1: set<nat>, frames: nat, more: set<nat>, ok: bool) {
    if ok then s1 + frames == s0 && h1 == h0 + more else s0 < frames + |h0 + more|
  }

  lemma PaidMore(s0: nat, h0: set<nat>, s1: nat, h1: set<nat>, f1: nat, more1: set<nat>, s2: nat, h2: set<nat>, f2: nat,
                 more2: set<nat>, ok: bool)
    requires Paid(s0, h0, s1, h1, f1, more1, true) && Paid(s1, h1, s2, h2, f2, more2, ok)
    ensures Paid(s0, h0, s2, h2, f1 + f2, more1 + more2, ok)
  {
    assert h0 + (more1 + more2) == h1 + more2;
  }

  /** What does not suffice for a part does not suffice for the whole. */
  lemma PaidLess(s0: nat, h0: set<nat>, s1: nat, h1: set<nat>, f: nat, more: set<nat>, f': nat, more': set<nat>)
    requires Paid(s0, h0, s1, h1, f, more, false) && f <= f' && more <= more'
    ensures Paid(s0, h0, s1, h1, f', more', false)
  {
    Smaller(h0 + more, h0 + more');
  }

  lemma PaidStart(s: nat, h: set<nat>, lo: nat)
    ensures Paid(s, h, s, h, 0, Pdes(lo, lo), true)
  {
    assert h + {} == h;
  }

  /** One more page of a range that ends at hi. */
  lemma PaidNext(s0: nat, h0: set<nat>, s1: nat, h1: set<nat>, s2: nat, h2: set<nat>, each: nat, f: nat, lo: nat, a: nat,
                 hi: nat, ok: bool)
    requires lo <= a < hi && Paid(s0, h0, s1, h1, f, Pdes(lo, a), true) && Paid(s1, h1, s2, h2, each, {Pdx(a)}, ok)
    ensures ok ==> Paid(s0, h0, s2, h2, f + each, Pdes(lo, a + 1), true)
    ensures !ok ==> Paid(s0, h0, s2, h2, f + each, Pdes(lo, hi), false)
  {
    PaidMore(s0, h0, s1, h1, f, Pdes(lo, a), s2, h2, each, {Pdx(a)}, ok);
    PdesOne(a);
    PdesJoin(lo, a, a + 1);
    PdesJoin(lo, a + 1, hi);
    if !ok {
      PaidLess(s0, h0, s2, h2, f + each, Pdes(lo, a + 1), f + each, Pdes(lo, hi));
    }
  }

  /** A new page table takes one page, which has to be there. */
  lemma PaidTable(p: Page, i: nat, e: Entry, n: nat)
    requires i < NPTE && !Present(p.w[i]) && Present(e) && |p.w[i := e]| == NPTE && 0 < n
    ensures var p': Page := RawPage(p.w[i := e]); Paid(n + |Tables(p)|, Tables(p), n - 1 + |Tables(p')|, Tables(p'), 0, {i}, true)
  {
    var p': Page := RawPage(p.w[i := e]);
    assert Tables(p') == Tables(p) + {i};
  }

  lemma NoTablePaid(p: Page, i: nat)
    requires i < NPTE && !Present(p.w[i])
    ensures Paid(|Tables(p)|, Tables(p), |Tables(p)|, Tables(p), 0, {i}, false)
  {
    Smaller(Tables(p), Tables(p) + {i});
  }

  lemma PaidFrame(s: nat, h: set<nat>, s': nat, h': set<nat>, more: set<nat>, ok: bool)
    requires Paid(s, h, s', h', 0, more, ok)
    ensures Paid(s + 1, h, s', h', 1, more, ok)
  {
  }

  lemma NoFramePaid(h: set<nat>, more: set<nat>)
    ensures Paid(|h|, h, |h|, h, 1, more, false)
  {
    Smaller(h, h + more);
  }

  /** n0 free pages suffice exactly when there is one for each frame and each missing table, which are then gone. */
  lemma PaidExactly(n0: nat, h0: set<nat>, n1: nat, h1: set<nat>, frames: nat, more: set<nat>, ok: bool)
    requires Paid(n0 + |h0|, h0, n1 + |h1|, h1, frames, more, ok)
    ensures ok <==> n0 >= frames + |more - h0|
    ensures ok ==> n1 == n0 - frames - |more - h0|
  {
    assert h0 + more == h0 + (more - h0);
    assert h0 * (more - h0) == {};
  }

  lemma UnpaidMeans(n0: nat, h0: set<nat>, s1: nat, h1: set<nat>, frames: nat, more: set<nat>)
    requires Paid(n0 + |h0|, h0, s1, h1, frames, more, false)
    ensures n0 < frames + |more - h0|
  {
    assert h0 + more == h0 + (more - h0);
    assert h0 * (more - h0) == {};
  }

  /** A failure does not depend on what is done about it. */
  lemma UnpaidStays(s0: nat, h0: set<nat>, s1: nat, h1: set<nat>, s2: nat, h2: set<nat>, frames: nat, more: set<nat>)
    requires Paid(s0, h0, s1, h1, frames, more, false)
    ensures Paid(s0, h0, s2, h2, frames, more, false)
  {
  }

  /** Each free page is on the list once. */
  lemma {:induction false} ListLength(free: seq<nat>, s: set<nat>)
    requires forall a :: a in s <==> a in free
    requires forall j, k :: 0 <= j < k < |free| ==> free[j] != free[k]
    ensures |free| == |s|
  {
    if free == [] {
      assert s == {};
    } else {
      var rest, s' := free[1..], s - {free[0]};
      assert free == [free[0]] + rest;
      ListLength(rest, s');
    }
  }

  ghost function FreePages(owner: Uses): set<nat> {
    set a | a in owner && owner[a] == Free
  }

  /** The length of the free list is the number of free pages. */
  lemma FreeCount(mem: seq<Page>, owner: Uses, free: seq<nat>, freelist: nat)
    requires ListOk(mem, owner, free, freelist)
    ensures |free| == |FreePages(owner)|
  {
    forall a | a in free
      ensures a in FreePages(owner)
    {
      var k :| 0 <= k < |free| && free[k] == a;
      assert LinkOk(mem, owner, free, k);
    }
    ListLength(free, FreePages(owner));
  }

  /** The directory entries of the kernel's mappings. */
  ghost function KernelPdes(): set<nat> {
    Pdes(KVPN, KVPN + NPAGES) + Pdes(DEVVPN, NVPN)
  }

  /** The kernel's mappings take 64 page tables, none of them shared with user pages. */
  lemma KernelPdesSize()
    ensures |KernelPdes()| == 64
  {
    hide Range;
    assert Pdes(KVPN, KVPN + NPAGES) == Range(512, 568) && Pdes(DEVVPN, NVPN) == Range(1016, 1024);
    assert Range(512, 568) * Range(1016, 1024) == {};
  }

  lemma UserPdes(n: nat)
    requires n <= KVPN
    ensures |Pdes(0, n) - KernelPdes()| == (n + NPTE - 1) / NPTE
  {
    hide Range;
    assert Pdes(0, n) - KernelPdes() == Pdes(0, n);
  }
}
